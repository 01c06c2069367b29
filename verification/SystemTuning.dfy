/** Auto-tuning of the configuration for a fixed snapshot of the system's capabilities: nine
    passes in sequence, several of which write the same fields. */
module SystemTuning {
  datatype Capabilities = Capabilities(
    ioUring: bool, mmap: bool, ipv6: bool, encryption: bool,
    totalGb: real, freeGb: real, cpuCount: int, activeInterfaces: nat)

  /** The tuned fields of a configuration. */
  datatype Settings = Settings(
    ioUring: bool, useMmap: bool, ipv6: bool, encryption: bool,
    readAheadKib: int, cacheSizeMb: int, hashWorkers: int, diskWorkers: int,
    maxGlobalPeers: int, maxPeersPerTorrent: int, peerTimeout: real,
    sndbufKib: int, rcvbufKib: int)

  function Min(a: int, b: int): int { if a < b then a else b }
  function AtLeast(x: int, low: int): int { if x < low then low else x }
  function AtMost(x: int, high: int): int { if x > high then high else x }

  // ----- What each pass does to each field it writes.

  function ReadAhead(x: int, c: Capabilities): int {
    if c.totalGb >= 16.0 then AtLeast(x, 1024) else if c.totalGb >= 8.0 then AtMost(x, 512) else AtMost(x, 256)
  }

  function MemoryCache(x: int, c: Capabilities): int {
    if c.totalGb >= 16.0 then AtLeast(x, 1024) else if c.totalGb >= 8.0 then AtMost(x, 512) else AtMost(x, 128)
  }

  function InterfacePeers(x: int, c: Capabilities): int {
    if c.activeInterfaces == 0 then AtMost(x, 50)
    else if c.activeInterfaces == 1 then AtMost(x, 200)
    else AtLeast(x, 300)
  }

  function HashWorkers(x: int, c: Capabilities): int {
    if c.cpuCount >= 8 then (if x < 8 then Min(8, c.cpuCount) else x)
    else if c.cpuCount >= 4 then (if x > 4 then Min(4, c.cpuCount) else x)
    else if x > 2 then Min(2, c.cpuCount) else x
  }

  function DiskWorkers(x: int, c: Capabilities): int {
    if c.cpuCount >= 8 then (if x < 4 then Min(4, c.cpuCount / 2) else x)
    else if c.cpuCount >= 4 then (if x > 2 then Min(2, c.cpuCount / 2) else x)
    else if x > 1 then Min(1, c.cpuCount) else x
  }

  function DiskCache(x: int, c: Capabilities): int {
    if c.freeGb < 1.0 then AtMost(x, 64)
    else if c.freeGb < 5.0 then AtMost(x, 128)
    else if c.freeGb > 100.0 then AtLeast(x, 512)
    else x
  }

  /** `min(limit, total_gb * factor)`, kept as a real as Python keeps a float. */
  function OptimalPeers(c: Capabilities): real {
    if c.totalGb >= 16.0 && c.cpuCount >= 8 then MinReal(500.0, c.totalGb * 20.0)
    else if c.totalGb >= 8.0 && c.cpuCount >= 4 then MinReal(200.0, c.totalGb * 15.0)
    else MinReal(100.0, c.totalGb * 10.0)
  }

  function MinReal(a: real, b: real): real { if b < a then b else a }

  function OptimalPeersPerTorrent(c: Capabilities): int {
    if c.totalGb >= 16.0 && c.cpuCount >= 8 then Min(50, (OptimalPeers(c) / 10.0).Floor)
    else if c.totalGb >= 8.0 && c.cpuCount >= 4 then Min(30, (OptimalPeers(c) / 8.0).Floor)
    else Min(20, (OptimalPeers(c) / 6.0).Floor)
  }

  function PeerTimeout(x: real, c: Capabilities): real {
    if c.cpuCount >= 8 then (if x > 30.0 then 30.0 else x)
    else if c.cpuCount >= 4 then (if x > 60.0 then 60.0 else x)
    else if x < 90.0 then 90.0 else x
  }

  function Buffer(x: int, c: Capabilities): int {
    if c.totalGb >= 16.0 then AtLeast(x, 1024) else if c.totalGb >= 8.0 then AtMost(x, 512) else AtMost(x, 256)
  }

  // ----- The passes.

  function IoPass(s: Settings, c: Capabilities): Settings {
    s.(ioUring := c.ioUring, useMmap := c.mmap)
  }

  function MemoryPass(s: Settings, c: Capabilities): Settings {
    s.(readAheadKib := ReadAhead(s.readAheadKib, c), cacheSizeMb := MemoryCache(s.cacheSizeMb, c))
  }

  function NetworkPass(s: Settings, c: Capabilities): Settings {
    s.(ipv6 := s.ipv6 && c.ipv6, maxGlobalPeers := InterfacePeers(s.maxGlobalPeers, c))
  }

  function CpuPass(s: Settings, c: Capabilities): Settings {
    s.(hashWorkers := HashWorkers(s.hashWorkers, c), diskWorkers := DiskWorkers(s.diskWorkers, c))
  }

  function SecurityPass(s: Settings, c: Capabilities): Settings {
    s.(encryption := s.encryption && c.encryption)
  }

  function DiskPass(s: Settings, c: Capabilities): Settings {
    s.(cacheSizeMb := DiskCache(s.cacheSizeMb, c))
  }

  function PeerPass(s: Settings, c: Capabilities): Settings {
    s.(maxGlobalPeers := OptimalPeers(c).Floor, maxPeersPerTorrent := OptimalPeersPerTorrent(c))
  }

  function TimeoutPass(s: Settings, c: Capabilities): Settings {
    s.(peerTimeout := PeerTimeout(s.peerTimeout, c))
  }

  function BufferPass(s: Settings, c: Capabilities): Settings {
    s.(sndbufKib := Buffer(s.sndbufKib, c), rcvbufKib := Buffer(s.rcvbufKib, c))
  }

  function Conditional(s: Settings, c: Capabilities): Settings {
    DiskPass(SecurityPass(CpuPass(NetworkPass(MemoryPass(IoPass(s, c), c), c), c), c), c)
  }

  function Adjusted(s: Settings, c: Capabilities): Settings {
    BufferPass(TimeoutPass(PeerPass(Conditional(s, c), c), c), c)
  }

  /** The copied configuration that the passes assign to. */
  class Config {
    var ioUring: bool
    var useMmap: bool
    var ipv6: bool
    var encryption: bool
    var readAheadKib: int
    var cacheSizeMb: int
    var hashWorkers: int
    var diskWorkers: int
    var maxGlobalPeers: int
    var maxPeersPerTorrent: int
    var peerTimeout: real
    var sndbufKib: int
    var rcvbufKib: int

    function View(): Settings
      reads this
    {
      Settings(ioUring, useMmap, ipv6, encryption, readAheadKib, cacheSizeMb, hashWorkers, diskWorkers,
               maxGlobalPeers, maxPeersPerTorrent, peerTimeout, sndbufKib, rcvbufKib)
    }

    /** `copy.deepcopy(config)`. */
    constructor (s: Settings)
      ensures View() == s
    {
      ioUring, useMmap, ipv6, encryption := s.ioUring, s.useMmap, s.ipv6, s.encryption;
      readAheadKib, cacheSizeMb := s.readAheadKib, s.cacheSizeMb;
      hashWorkers, diskWorkers := s.hashWorkers, s.diskWorkers;
      maxGlobalPeers, maxPeersPerTorrent := s.maxGlobalPeers, s.maxPeersPerTorrent;
      peerTimeout, sndbufKib, rcvbufKib := s.peerTimeout, s.sndbufKib, s.rcvbufKib;
    }

    method ApplyIo(c: Capabilities)
      modifies this
      ensures View() == IoPass(old(View()), c)
    {
      if c.ioUring {
        if !ioUring { ioUring := true; }
      } else if ioUring {
        ioUring := false;
      }
      if c.mmap {
        if !useMmap { useMmap := true; }
      } else if useMmap {
        useMmap := false;
      }
    }

    method ApplyMemory(c: Capabilities)
      modifies this
      ensures View() == MemoryPass(old(View()), c)
    {
      if c.totalGb >= 16.0 {
        if readAheadKib < 1024 { readAheadKib := 1024; }
      } else if c.totalGb >= 8.0 {
        if readAheadKib > 512 { readAheadKib := 512; }
      } else if readAheadKib > 256 {
        readAheadKib := 256;
      }
      if c.totalGb >= 16.0 {
        if cacheSizeMb < 1024 { cacheSizeMb := 1024; }
      } else if c.totalGb >= 8.0 {
        if cacheSizeMb > 512 { cacheSizeMb := 512; }
      } else if cacheSizeMb > 128 {
        cacheSizeMb := 128;
      }
    }

    method ApplyNetwork(c: Capabilities)
      modifies this
      ensures View() == NetworkPass(old(View()), c)
    {
      if !c.ipv6 && ipv6 { ipv6 := false; }
      if c.activeInterfaces == 0 {
        if maxGlobalPeers > 50 { maxGlobalPeers := 50; }
      } else if c.activeInterfaces == 1 {
        if maxGlobalPeers > 200 { maxGlobalPeers := 200; }
      } else if maxGlobalPeers < 300 {
        maxGlobalPeers := 300;
      }
    }

    method ApplyCpu(c: Capabilities)
      modifies this
      ensures View() == CpuPass(old(View()), c)
    {
      if c.cpuCount >= 8 {
        if hashWorkers < 8 { hashWorkers := Min(8, c.cpuCount); }
        if diskWorkers < 4 { diskWorkers := Min(4, c.cpuCount / 2); }
      } else if c.cpuCount >= 4 {
        if hashWorkers > 4 { hashWorkers := Min(4, c.cpuCount); }
        if diskWorkers > 2 { diskWorkers := Min(2, c.cpuCount / 2); }
      } else {
        if hashWorkers > 2 { hashWorkers := Min(2, c.cpuCount); }
        if diskWorkers > 1 { diskWorkers := Min(1, c.cpuCount); }
      }
    }

    method ApplySecurity(c: Capabilities)
      modifies this
      ensures View() == SecurityPass(old(View()), c)
    {
      if !c.encryption && encryption { encryption := false; }
    }

    method ApplyDisk(c: Capabilities)
      modifies this
      ensures View() == DiskPass(old(View()), c)
    {
      if c.freeGb < 1.0 {
        if cacheSizeMb > 64 { cacheSizeMb := 64; }
      } else if c.freeGb < 5.0 {
        if cacheSizeMb > 128 { cacheSizeMb := 128; }
      } else if c.freeGb > 100.0 && cacheSizeMb < 512 {
        cacheSizeMb := 512;
      }
    }

    method AutoTunePeerLimits(c: Capabilities)
      modifies this
      ensures View() == PeerPass(old(View()), c)
    {
      var optimal := OptimalPeers(c);
      var perTorrent := OptimalPeersPerTorrent(c);
      if maxGlobalPeers as real != optimal { maxGlobalPeers := optimal.Floor; }
      if maxPeersPerTorrent != perTorrent { maxPeersPerTorrent := perTorrent; }
    }

    method AutoTuneTimeouts(c: Capabilities)
      modifies this
      ensures View() == TimeoutPass(old(View()), c)
    {
      if c.cpuCount >= 8 {
        if peerTimeout > 30.0 { peerTimeout := 30.0; }
      } else if c.cpuCount >= 4 {
        if peerTimeout > 60.0 { peerTimeout := 60.0; }
      } else if peerTimeout < 90.0 {
        peerTimeout := 90.0;
      }
    }

    method AutoTuneBuffers(c: Capabilities)
      modifies this
      ensures View() == BufferPass(old(View()), c)
    {
      if c.totalGb >= 16.0 {
        if sndbufKib < 1024 { sndbufKib := 1024; }
        if rcvbufKib < 1024 { rcvbufKib := 1024; }
      } else if c.totalGb >= 8.0 {
        if sndbufKib > 512 { sndbufKib := 512; }
        if rcvbufKib > 512 { rcvbufKib := 512; }
      } else {
        if sndbufKib > 256 { sndbufKib := 256; }
        if rcvbufKib > 256 { rcvbufKib := 256; }
      }
    }

    /** The passes run on a copy: this object stays as it is. */
    method AdjustForSystem(c: Capabilities) returns (tuned: Config)
      ensures fresh(tuned) && tuned.View() == Adjusted(View(), c)
    {
      tuned := new Config(View());
      tuned.ApplyIo(c);
      tuned.ApplyMemory(c);
      tuned.ApplyNetwork(c);
      tuned.ApplyCpu(c);
      tuned.ApplySecurity(c);
      tuned.ApplyDisk(c);
      tuned.AutoTunePeerLimits(c);
      tuned.AutoTuneTimeouts(c);
      tuned.AutoTuneBuffers(c);
    }

    method ApplyConditionalConfig(c: Capabilities) returns (modified: Config)
      ensures fresh(modified) && modified.View() == Conditional(View(), c)
    {
      modified := new Config(View());
      modified.ApplyIo(c);
      modified.ApplyMemory(c);
      modified.ApplyNetwork(c);
      modified.ApplyCpu(c);
      modified.ApplySecurity(c);
      modified.ApplyDisk(c);
    }

    /** The validity flag; the warnings that leave it alone are not modelled. */
    method ValidateAgainstSystem(c: Capabilities) returns (isValid: bool)
      ensures isValid == Supports(c, View())
    {
      isValid := true;
      if ioUring && !c.ioUring { isValid := false; }
      if useMmap && !c.mmap { isValid := false; }
      if ipv6 && !c.ipv6 { isValid := false; }
      if encryption && !c.encryption { isValid := false; }
    }
  }

  /** The system has every feature that is switched on. */
  predicate Supports(c: Capabilities, s: Settings) {
    (s.ioUring ==> c.ioUring) && (s.useMmap ==> c.mmap) && (s.ipv6 ==> c.ipv6) && (s.encryption ==> c.encryption)
  }

  /** The ranges the configuration model declares for the tuned fields. */
  predicate InRange(s: Settings) {
    && 0 <= s.readAheadKib <= 1024 && 16 <= s.cacheSizeMb <= 4096
    && 1 <= s.hashWorkers <= 32 && 1 <= s.diskWorkers <= 16
    && 1 <= s.maxGlobalPeers <= 10000 && 1 <= s.maxPeersPerTorrent <= 1000
    && 5.0 <= s.peerTimeout <= 600.0
    && 1 <= s.sndbufKib <= 65536 && 1 <= s.rcvbufKib <= 65536
  }

  /** Tuning a tuned configuration changes nothing, although the memory and disk passes both
      write the cache size and the network and peer passes both write the global limit. */
  lemma AdjustIdempotent(s: Settings, c: Capabilities)
    ensures Adjusted(Adjusted(s, c), c) == Adjusted(s, c)
    ensures Conditional(Conditional(s, c), c) == Conditional(s, c)
    ensures Adjusted(Conditional(s, c), c) == Adjusted(s, c)
  {
  }

  /** The peer pass has the last word: how many network interfaces are active never shows in
      a tuned configuration. */
  lemma InterfacesDoNotShow(s: Settings, c: Capabilities, n: nat)
    ensures Adjusted(s, c.(activeInterfaces := n)) == Adjusted(s, c)
  {
  }

  /** A tuned configuration is valid for the system it was tuned for. */
  lemma AdjustedIsSupported(s: Settings, c: Capabilities)
    ensures Supports(c, Adjusted(s, c))
  {
  }

  lemma PeerLimits(c: Capabilities)
    requires c.totalGb >= 0.0
    ensures 0 <= OptimalPeersPerTorrent(c) <= OptimalPeers(c).Floor <= 500
    ensures OptimalPeersPerTorrent(c) >= 1 <==> c.totalGb >= 0.6
    ensures OptimalPeersPerTorrent(c) <= 50
  {
  }

  /** Tuning keeps every field in its declared range exactly when the system reports at least
      0.6 GiB of memory and, unless the workers are few already, at least one processor; the
      limit per torrent never exceeds the global one. A failed memory probe reports 0.0. */
  lemma AdjustKeepsRangesIff(s: Settings, c: Capabilities)
    requires InRange(s) && c.totalGb >= 0.0
    ensures InRange(Adjusted(s, c)) <==>
            c.totalGb >= 0.6 && (c.cpuCount >= 1 || (s.hashWorkers <= 2 && s.diskWorkers <= 1))
    ensures Adjusted(s, c).maxPeersPerTorrent <= Adjusted(s, c).maxGlobalPeers
  {
  }

  /** The declared default of every tuned field. */
  const DEFAULTS := Settings(false, true, true, false, 64, 256, 4, 2, 200, 50, 60.0, 256, 256)

  /** When the memory probe fails it reports 0.0, and the defaults are tuned down to no peers
      at all. */
  lemma FailedProbeLeavesRange(c: Capabilities)
    requires c.totalGb == 0.0
    ensures InRange(DEFAULTS) && !InRange(Adjusted(DEFAULTS, c))
    ensures Adjusted(DEFAULTS, c).maxGlobalPeers == Adjusted(DEFAULTS, c).maxPeersPerTorrent == 0
  {
    AdjustKeepsRangesIff(DEFAULTS, c);
  }

  // ----- What comes out, field by field.

  /** Input and output features follow the system; the other two are only ever switched off. */
  lemma TunedFeatures(s: Settings, c: Capabilities)
    ensures var t := Adjusted(s, c);
      t.ioUring == c.ioUring && t.useMmap == c.mmap && t.ipv6 == (s.ipv6 && c.ipv6)
      && t.encryption == (s.encryption && c.encryption)
  {
  }

  /** A configuration is valid exactly when tuning would switch nothing off. */
  lemma ValidIffNothingSwitchedOff(s: Settings, c: Capabilities)
    ensures var t := Adjusted(s, c);
      Supports(c, s) <==>
        !(s.ioUring && !t.ioUring) && !(s.useMmap && !t.useMmap) && !(s.ipv6 && !t.ipv6) && !(s.encryption && !t.encryption)
  {
  }

  /** The cache size after both passes that write it: little free disk space caps it at 64 or
      128, much of it raises it to 512 unless the memory allows more, and in between the memory
      decides. */
  lemma TunedCache(s: Settings, c: Capabilities)
    ensures var t, x := Adjusted(s, c).cacheSizeMb, s.cacheSizeMb;
      t == if c.freeGb < 1.0 then (if c.totalGb < 16.0 && x < 64 then x else 64)
           else if c.freeGb < 5.0 then (if c.totalGb < 16.0 && x < 128 then x else 128)
           else if c.totalGb >= 16.0 then (if x > 1024 then x else 1024)
           else if c.freeGb > 100.0 then 512
           else if c.totalGb >= 8.0 then (if x < 512 then x else 512)
           else if x < 128 then x else 128
    ensures Conditional(s, c).cacheSizeMb == Adjusted(s, c).cacheSizeMb
  {
  }

  /** From 16 GiB on at least one MiB of read-ahead and of either socket buffer, below at most
      half of that, below 8 GiB at most a quarter. */
  lemma TunedBuffers(s: Settings, c: Capabilities)
    ensures var t := Adjusted(s, c);
      && Tiered(s.readAheadKib, t.readAheadKib, c.totalGb)
      && Tiered(s.sndbufKib, t.sndbufKib, c.totalGb) && Tiered(s.rcvbufKib, t.rcvbufKib, c.totalGb)
  {
  }

  /** `t` is the value nearest to `x` that the memory allows. */
  predicate Tiered(x: int, t: int, totalGb: real) {
    if totalGb >= 16.0 then t >= 1024 && t >= x && (t == x || t == 1024)
    else if totalGb >= 8.0 then t <= 512 && t <= x && (t == x || t == 512)
    else t <= 256 && t <= x && (t == x || t == 256)
  }

  /** Eight processors ask for at least 8 hash and 4 disk workers, fewer allow at most 4 and 2,
      or 2 and 1. A single processor turns more than two hash workers into one. */
  lemma TunedWorkers(s: Settings, c: Capabilities)
    ensures var t, h, d := Adjusted(s, c), s.hashWorkers, s.diskWorkers;
      && t.hashWorkers == (if c.cpuCount >= 8 then (if h > 8 then h else 8)
                           else if c.cpuCount >= 4 then (if h < 4 then h else 4)
                           else if h <= 2 then h
                           else if c.cpuCount >= 2 then 2 else c.cpuCount)
      && t.diskWorkers == (if c.cpuCount >= 8 then (if d > 4 then d else 4)
                           else if c.cpuCount >= 4 then (if d < 2 then d else 2)
                           else if d <= 1 then d
                           else if c.cpuCount >= 1 then 1 else c.cpuCount)
  {
  }

  /** At most 30 or 60 seconds with eight or four processors, at least 90 with fewer. */
  lemma TunedTimeout(s: Settings, c: Capabilities)
    ensures var t, x := Adjusted(s, c).peerTimeout, s.peerTimeout;
      if c.cpuCount >= 8 then t <= 30.0 && t <= x && (t == x || t == 30.0)
      else if c.cpuCount >= 4 then t <= 60.0 && t <= x && (t == x || t == 60.0)
      else t >= 90.0 && t >= x && (t == x || t == 90.0)
  {
  }

  /** Twenty, fifteen or ten peers to the GiB, but not over 500, 200 or 100, whatever was
      configured. */
  lemma TunedPeers(s: Settings, c: Capabilities)
    ensures Adjusted(s, c).maxGlobalPeers ==
      if c.totalGb >= 16.0 && c.cpuCount >= 8 then (if c.totalGb >= 25.0 then 500 else (20.0 * c.totalGb).Floor)
      else if c.totalGb >= 8.0 && c.cpuCount >= 4 then (if 3.0 * c.totalGb >= 40.0 then 200 else (15.0 * c.totalGb).Floor)
      else if c.totalGb >= 10.0 then 100 else (10.0 * c.totalGb).Floor
  {
  }

  /** A tenth, an eighth or a sixth of these to a torrent. The caps of 50, 30 and 20 never bind. */
  lemma TunedPeersPerTorrent(s: Settings, c: Capabilities)
    ensures Adjusted(s, c).maxPeersPerTorrent ==
      if c.totalGb >= 16.0 && c.cpuCount >= 8 then (if c.totalGb >= 25.0 then 50 else (2.0 * c.totalGb).Floor)
      else if c.totalGb >= 8.0 && c.cpuCount >= 4 then
        (if 3.0 * c.totalGb >= 40.0 then 25 else (15.0 * c.totalGb / 8.0).Floor)
      else if c.totalGb >= 10.0 then 16 else (10.0 * c.totalGb / 6.0).Floor
  {
  }

  /** The six passes alone leave peers per torrent, timeout and buffers as they are, and hold the
      global limit to 50 without an active interface, to 200 with one, to 300 or more with several;
      in every other field they agree with all nine. */
  lemma ConditionalIs(s: Settings, c: Capabilities)
    ensures var t, x := Conditional(s, c), s.maxGlobalPeers;
      && t.maxGlobalPeers == (if c.activeInterfaces == 0 then (if x < 50 then x else 50)
                              else if c.activeInterfaces == 1 then (if x < 200 then x else 200)
                              else if x > 300 then x else 300)
      && t == Adjusted(s, c).(maxGlobalPeers := t.maxGlobalPeers, maxPeersPerTorrent := s.maxPeersPerTorrent,
                              peerTimeout := s.peerTimeout, sndbufKib := s.sndbufKib, rcvbufKib := s.rcvbufKib)
  {
  }
}
