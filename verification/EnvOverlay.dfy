/** The configuration a process starts with: the file's tree with the environment's values
    laid over it. */
module EnvOverlay {
  import opened Wrappers
  import opened ConfigTree
  import opened DottedKeys
  import opened Changes
  import opened ConfigMerge

  /** One environment variable that is set: the dotted key its value goes to, and the value
      parsed. */
  type Assignment = (string, Scalar)

  function Writes(env: seq<Assignment>): (cs: seq<(string, Change)>)
    ensures |cs| == |env| && forall i :: 0 <= i < |env| ==> cs[i] == (env[i].0, Put(Leaf(env[i].1)))
  {
    seq(|env|, i requires 0 <= i < |env| => (env[i].0, Put(Leaf(env[i].1))))
  }

  /** The values written one after the other into an empty tree; None where `_set_nested` would
      step into a leaf and raise. */
  function EnvTree(env: seq<Assignment>): Option<Node> {
    ApplyAll(EMPTY, Writes(env))
  }

  /** The variables that are set, in the order of the table. */
  function Assignments(table: seq<(string, string)>, getenv: string -> Option<string>,
                       parse: (string, string) -> Scalar): seq<Assignment>
  {
    if table == [] then []
    else
      var front := Assignments(table[..|table| - 1], getenv, parse);
      var (name, path) := table[|table| - 1];
      match getenv(name)
      case None => front
      case Some(raw) => front + [(path, parse(raw, path))]
  }

  lemma LastAssigned(env: seq<Assignment>)
    requires env != []
    ensures var front, last := env[..|env| - 1], env[|env| - 1];
      EnvTree(env) == match EnvTree(front) case None => None case Some(t) => Set(t, Split(last.0), Leaf(last.1))
  {
    assert Writes(env)[..|env| - 1] == Writes(env[..|env| - 1]);
  }

  lemma EnvTreeRaised(env: seq<Assignment>, i: nat)
    requires i <= |env| && EnvTree(env[..i]).None?
    ensures EnvTree(env).None?
  {
    assert Writes(env)[..i] == Writes(env[..i]);
    RaisedStaysRaised(EMPTY, Writes(env), i);
  }

  lemma {:induction false} AssignmentsGrow(table: seq<(string, string)>, n: nat, getenv: string -> Option<string>,
                                           parse: (string, string) -> Scalar)
    requires n <= |table|
    ensures Assignments(table[..n], getenv, parse) <= Assignments(table, getenv, parse)
  {
    if n < |table| {
      var front := table[..|table| - 1];
      assert front[..n] == table[..n];
      AssignmentsGrow(front, n, getenv, parse);
    } else {
      assert table[..n] == table;
    }
  }

  method GetEnvConfig(table: seq<(string, string)>, getenv: string -> Option<string>, parse: (string, string) -> Scalar)
    returns (r: Option<Node>)
    ensures r == EnvTree(Assignments(table, getenv, parse))
  {
    var envConfig := EMPTY;
    for i := 0 to |table|
      invariant EnvTree(Assignments(table[..i], getenv, parse)) == Some(envConfig)
    {
      assert table[..i + 1][..i] == table[..i];
      var (name, path) := table[i];
      var raw := getenv(name);
      if raw.Some? {
        ghost var env := Assignments(table[..i + 1], getenv, parse);
        assert env[..|env| - 1] == Assignments(table[..i], getenv, parse);
        LastAssigned(env);
        var m := Set(envConfig, Split(path), Leaf(parse(raw.value, path)));
        if m.None? {
          ghost var whole := Assignments(table, getenv, parse);
          AssignmentsGrow(table, i + 1, getenv, parse);
          assert whole[..|env|] == env;
          EnvTreeRaised(whole, |env|);
          return None;
        }
        envConfig := m.value;
      }
    }
    assert table[..|table|] == table;
    return Some(envConfig);
  }

  // ----- What the tree of environment values reads.

  /** No assigned path leads through another. */
  predicate PrefixFree(env: seq<Assignment>) {
    forall a, b :: a in env && b in env && Split(a.0) <= Split(b.0) ==> Split(a.0) == Split(b.0)
  }

  /** The value set last at `q`. */
  function LastValue(env: seq<Assignment>, q: Path): Option<Scalar> {
    LastRead(EMPTY, Writes(env), q)
  }

  /** `q` is an assigned path, or leads to one, or leads on from one. */
  predicate Touched(env: seq<Assignment>, q: Path) {
    exists a :: a in env && (Split(a.0) <= q || q <= Split(a.0))
  }

  lemma {:induction false} DecidesSet(n: Node, p: Path, v: Scalar, q: Path)
    requires p != [] && Set(n, p, Leaf(v)).Some?
    ensures Decides(Set(n, p, Leaf(v)).value, q) <==> p <= q || q <= p || Decides(n, q)
    decreases p
  {
    if q != [] && q[0] == p[0] {
      PrefixTail(p, q);
      PrefixTail(q, p);
      if |p| > 1 {
        DecidesSet(Kid(n, p[0]), p[1..], v, q[1..]);
      }
    }
  }

  lemma LastValueAt(env: seq<Assignment>, q: Path) returns (k: int)
    ensures -1 <= k < |env| && forall i :: k < i < |env| ==> !(Split(env[i].0) <= q)
    ensures k == -1 ==> LastValue(env, q) == None
    ensures k >= 0 ==> Split(env[k].0) <= q && LastValue(env, q) == if Split(env[k].0) == q then Some(env[k].1) else None
  {
    k := LastReadIs(EMPTY, Writes(env), q);
    assert forall i :: 0 <= i < |env| ==> Writes(env)[i].0 == env[i].0;
    if k >= 0 && Split(env[k].0) == q {
      assert q[|q|..] == [];
    }
  }

  /** A value set at `q`, and if several are, one of them; nothing comes from paths above. */
  lemma LastValueIs(env: seq<Assignment>, q: Path)
    requires PrefixFree(env)
    ensures LastValue(env, q).Some? <==> exists a :: a in env && Split(a.0) == q
    ensures LastValue(env, q).Some? ==> exists a :: a in env && Split(a.0) == q && LastValue(env, q) == Some(a.1)
  {
    var k := LastValueAt(env, q);
    if k >= 0 {
      assert env[k] in env;
    }
  }

  /** Setting never raises, in any order. */
  lemma NeverBlocked(env: seq<Assignment>, i: nat)
    requires PrefixFree(env) && i < |env|
    ensures !Blocked(EMPTY, Writes(env), i)
  {
    var p := Split(env[i].0);
    assert env[i] in env && forall k :: 0 <= k < i ==> env[k] in env;
    forall j | 0 <= j < |p| ensures LastRead(EMPTY, Writes(env)[..i], p[..j]).None? {
      var k := LastReadIs(EMPTY, Writes(env)[..i], p[..j]);
    }
  }

  /** Setting never raises, in any order; each set path reads its last value and every other
      path reads nothing; and the tree has a say exactly on and along the set paths. */
  lemma EnvTreeReads(env: seq<Assignment>, q: Path)
    requires PrefixFree(env)
    ensures var t := EnvTree(env);
      && t.Some? && t.value.Section?
      && LeafAt(t.value, q) == LastValue(env, q)
      && (Decides(t.value, q) <==> q == [] || Touched(env, q))
  {
    forall i | 0 <= i < |env| ensures !Blocked(EMPTY, Writes(env), i) {
      NeverBlocked(env, i);
    }
    RaisesIff(EMPTY, Writes(env));
    AppliedReads(EMPTY, Writes(env), q);
    EnvTreeSays(env, q);
  }

  lemma {:induction false} EnvTreeSays(env: seq<Assignment>, q: Path)
    requires EnvTree(env).Some?
    ensures var t := EnvTree(env).value;
      t.Section? && (Decides(t, q) <==> q == [] || Touched(env, q))
  {
    if env != [] {
      var front, last := env[..|env| - 1], env[|env| - 1];
      LastAssigned(env);
      EnvTreeSays(front, q);
      DecidesSet(EnvTree(front).value, Split(last.0), last.1, q);
      TouchedLast(env, q);
    }
  }

  lemma TouchedLast(env: seq<Assignment>, q: Path)
    requires env != []
    ensures var front, p := env[..|env| - 1], Split(env[|env| - 1].0);
      Touched(env, q) <==> Touched(front, q) || p <= q || q <= p
  {
  }

  /** A path set from the environment reads its value; a path on the way to one, or beyond one,
      reads no leaf; everything else reads as in the file. */
  function Reading(file: Node, env: seq<Assignment>, q: Path): Option<Scalar> {
    if LastValue(env, q).Some? then LastValue(env, q)
    else if Touched(env, q) then None
    else LeafAt(file, q)
  }

  /** So reads the loaded configuration. */
  lemma LoadedConfigReads(file: Node, env: seq<Assignment>, q: Path)
    requires file.Section? && PrefixFree(env)
    ensures EnvTree(env).Some? && EnvTree(env).value.Section?
    ensures LeafAt(Overlay(file, EnvTree(env).value), q) == Reading(file, env, q)
  {
    EnvTreeReads(env, q);
    var t := EnvTree(env).value;
    OverlayReads(file, t, q);
    LastValueIs(env, q);
    if LastValue(env, q).Some? {
      assert Touched(env, q);
    }
  }

  /** The same assignments, in any order, no path twice. */
  ghost predicate Reordered(env: seq<Assignment>, env': seq<Assignment>) {
    && (forall a :: a in env <==> a in env')
    && (forall a, b :: a in env && b in env && Split(a.0) == Split(b.0) ==> a == b)
  }

  lemma ReorderedReading(file: Node, env: seq<Assignment>, env': seq<Assignment>, q: Path)
    requires PrefixFree(env) && PrefixFree(env') && Reordered(env, env')
    ensures Reading(file, env, q) == Reading(file, env', q)
  {
    LastValueIs(env, q);
    LastValueIs(env', q);
  }

  /** Which order the variables are set in does not matter, as long as no path is set twice. */
  lemma EnvOrderIrrelevant(file: Node, env: seq<Assignment>, env': seq<Assignment>)
    requires file.Section? && PrefixFree(env) && Reordered(env, env')
    ensures EnvTree(env).Some? && EnvTree(env').Some?
    ensures EnvTree(env).value.Section? && EnvTree(env').value.Section?
    ensures SameLeaves(Overlay(file, EnvTree(env).value), Overlay(file, EnvTree(env').value))
  {
    assert PrefixFree(env');
    EnvTreeReads(env, []);
    EnvTreeReads(env', []);
    forall q: Path
      ensures LeafAt(Overlay(file, EnvTree(env).value), q) == LeafAt(Overlay(file, EnvTree(env').value), q)
    {
      LoadedConfigReads(file, env, q);
      LoadedConfigReads(file, env', q);
      ReorderedReading(file, env, env', q);
    }
  }

  // ----- The repository's own table.

  const PEER_NAMES: set<string> := {
    "max_global_peers", "max_peers_per_torrent", "listen_port", "listen_port_tcp", "listen_port_udp",
    "tracker_udp_port", "pipeline_depth", "block_size_kib", "connection_timeout", "handshake_timeout",
    "keep_alive_interval", "global_down_kib", "global_up_kib", "per_peer_down_kib", "per_peer_up_kib",
    "max_upload_slots", "tracker_timeout", "dns_cache_ttl"
  }

  const SESSION_NAMES: set<string> := {
    "connection_pool_max_connections", "connection_pool_max_idle_time",
    "connection_pool_warmup_enabled", "connection_pool_warmup_count",
    "connection_pool_health_check_interval", "tracker_keepalive_timeout", "tracker_enable_dns_cache",
    "tracker_dns_cache_ttl", "timeout_adaptive", "timeout_min_seconds", "timeout_max_seconds",
    "timeout_rtt_multiplier", "retry_exponential_backoff", "retry_base_delay", "retry_max_delay",
    "circuit_breaker_enabled", "circuit_breaker_failure_threshold", "circuit_breaker_recovery_timeout"
  }

  const SOCKET_NAMES: set<string> := {
    "socket_adaptive_buffers", "socket_min_buffer_kib", "socket_max_buffer_kib",
    "socket_enable_window_scaling", "pipeline_adaptive_depth", "pipeline_min_depth",
    "pipeline_max_depth", "pipeline_enable_prioritization", "pipeline_enable_coalescing",
    "pipeline_coalesce_threshold_kib"
  }

  /** The last parts of the mapped paths, by the section they belong to. */
  function MappedNames(section: Path): set<string> {
    if section == ["network"] then PEER_NAMES + SESSION_NAMES + SOCKET_NAMES
    else if section == ["network", "utp"] then {
      "prefer_over_tcp", "connection_timeout", "max_window_size", "mtu", "initial_rate", "min_rate",
      "max_rate", "ack_interval", "retransmit_timeout_factor", "max_retransmits"
    }
    else if section == ["strategy"] then {
      "piece_selection", "endgame_duplicates", "endgame_threshold", "streaming_mode"
    }
    else if section == ["disk"] then {
      "preallocate", "use_mmap", "mmap_cache_mb", "write_batch_kib", "hash_workers", "disk_workers",
      "direct_io", "sync_writes", "read_ahead_kib", "checkpoint_enabled", "checkpoint_dir",
      "checkpoint_compression", "auto_resume", "fast_resume_enabled", "resume_save_interval",
      "resume_verify_on_load", "resume_verify_pieces", "resume_data_format_version", "xet_enabled",
      "xet_chunk_min_size", "xet_chunk_max_size", "xet_chunk_target_size", "xet_deduplication_enabled",
      "xet_cache_db_path", "xet_chunk_store_path", "xet_use_p2p_cas", "xet_compression_enabled"
    }
    else if section == ["disk", "attributes"] then {
      "preserve_attributes", "skip_padding_files", "verify_file_sha1", "apply_symlinks",
      "apply_executable_bit", "apply_hidden_attr"
    }
    else if section == ["discovery"] then {
      "enable_dht", "dht_port", "enable_pex", "enable_udp_trackers", "enable_http_trackers",
      "tracker_announce_interval", "tracker_scrape_interval", "tracker_auto_scrape", "pex_interval",
      "strict_private_mode", "dht_enable_ipv6", "dht_prefer_ipv6", "dht_ipv6_bootstrap_nodes",
      "dht_readonly_mode", "dht_enable_multiaddress", "dht_max_addresses_per_node",
      "dht_enable_storage", "dht_storage_ttl", "dht_max_storage_size", "dht_enable_indexing",
      "dht_index_samples_per_key"
    }
    else if section == ["security"] then {
      "enable_encryption", "encryption_mode", "encryption_dh_key_size", "encryption_prefer_rc4",
      "encryption_allowed_ciphers", "encryption_allow_plain_fallback", "validate_peers",
      "rate_limit_enabled", "max_connections_per_peer"
    }
    else if section == ["security", "ip_filter"] then {
      "enable_ip_filter", "filter_mode", "filter_files", "filter_urls", "filter_update_interval",
      "filter_cache_dir", "filter_log_blocked"
    }
    else if section == ["observability"] then {
      "log_level", "log_file", "enable_metrics", "metrics_port", "enable_peer_tracing"
    }
    else if section == ["daemon"] then {
      "ipc_port", "ipc_host"
    }
    else if section == ["webtorrent"] then {
      "webtorrent_port"
    }
    else if section == ["dashboard"] then {
      "enable_dashboard", "host", "port", "refresh_interval", "default_view"
    }
    else if section == ["queue"] then {
      "max_active_torrents", "max_active_downloading", "max_active_seeding", "default_priority",
      "bandwidth_allocation_mode", "auto_manage_queue"
    }
    else if section == ["proxy"] then {
      "enable_proxy", "proxy_type", "proxy_host", "proxy_port", "proxy_username", "proxy_password",
      "proxy_for_trackers", "proxy_for_peers", "proxy_for_webseeds", "proxy_bypass_list"
    }
    else if section == ["security", "ssl"] then {
      "enable_ssl_trackers", "enable_ssl_peers", "ssl_verify_certificates", "ssl_ca_certificates",
      "ssl_client_certificate", "ssl_client_key", "ssl_protocol_version", "ssl_allow_insecure_peers"
    }
    else if section == ["network", "protocol_v2"] then {
      "enable_protocol_v2", "prefer_protocol_v2", "support_hybrid", "v2_handshake_timeout"
    }
    else if section == ["ui"] then {
      "locale"
    }
    else {}
  }

  predicate Mapped(p: Path) {
    p != [] && p[|p| - 1] in MappedNames(p[..|p| - 1])
  }

  /** Sections go two deep at most, and these five are the nested ones. */
  predicate Nested(r: Path) {
    r == ["network", "utp"] || r == ["network", "protocol_v2"] || r == ["disk", "attributes"]
    || r == ["security", "ip_filter"] || r == ["security", "ssl"]
  }

  lemma SectionDepth(r: Path)
    requires MappedNames(r) != {}
    ensures |r| == 1 || Nested(r)
  {
  }

  lemma NestedInPeers()
    ensures "utp" !in PEER_NAMES && "protocol_v2" !in PEER_NAMES
  {
  }

  lemma NestedInSession()
    ensures "utp" !in SESSION_NAMES && "protocol_v2" !in SESSION_NAMES
  {
  }

  lemma NestedInSockets()
    ensures "utp" !in SOCKET_NAMES && "protocol_v2" !in SOCKET_NAMES
  {
  }

  lemma NestedInDisk()
    ensures "attributes" !in MappedNames(["disk"])
  {
  }

  lemma NestedInSecurity()
    ensures "ip_filter" !in MappedNames(["security"]) && "ssl" !in MappedNames(["security"])
  {
    assert "security"[1] != "strategy"[1];
  }

  lemma NestedNotMapped(r: Path)
    requires Nested(r)
    ensures r[1] !in MappedNames([r[0]])
  {
    NestedInPeers();
    NestedInSession();
    NestedInSockets();
    NestedInDisk();
    NestedInSecurity();
  }

  /** No mapped path leads through another, so the hypothesis above always holds. */
  lemma MappedPrefixFree(p: Path, q: Path)
    requires Mapped(p) && Mapped(q) && p <= q
    ensures p == q
  {
    var s, r := p[..|p| - 1], q[..|q| - 1];
    SectionDepth(s);
    SectionDepth(r);
    if |p| < |q| {
      assert |s| == 1 && |r| == 2;
      assert s == [r[0]] && p[1] == r[1];
      NestedNotMapped(r);
    }
  }

  lemma MappedAssignments(env: seq<Assignment>)
    requires forall a :: a in env ==> Mapped(Split(a.0))
    ensures PrefixFree(env)
  {
    forall a, b | a in env && b in env && Split(a.0) <= Split(b.0) ensures Split(a.0) == Split(b.0) {
      MappedPrefixFree(Split(a.0), Split(b.0));
    }
  }

  // ----- The whole of it: from the table and the environment to the loaded configuration.

  /** Every row of the table names one of the mapped paths. */
  predicate MappedTable(table: seq<(string, string)>) {
    forall row :: row in table ==> Mapped(Split(row.1))
  }

  /** No row's path leads through another's. */
  predicate Apart(table: seq<(string, string)>) {
    forall a, b :: a in table && b in table && Split(a.1) <= Split(b.1) ==> Split(a.1) == Split(b.1)
  }

  lemma MappedApart(table: seq<(string, string)>)
    requires MappedTable(table)
    ensures Apart(table)
  {
    forall a, b | a in table && b in table && Split(a.1) <= Split(b.1) ensures Split(a.1) == Split(b.1) {
      MappedPrefixFree(Split(a.1), Split(b.1));
    }
  }

  lemma {:induction false} AssignmentsFromTable(table: seq<(string, string)>, getenv: string -> Option<string>,
                                                parse: (string, string) -> Scalar)
    ensures forall a :: a in Assignments(table, getenv, parse) ==> exists row :: row in table && row.1 == a.0
  {
    if table != [] {
      var last := table[|table| - 1];
      AssignmentsFromTable(table[..|table| - 1], getenv, parse);
      assert last in table;
    }
  }

  lemma AssignmentsApart(table: seq<(string, string)>, getenv: string -> Option<string>,
                         parse: (string, string) -> Scalar)
    requires Apart(table)
    ensures PrefixFree(Assignments(table, getenv, parse))
  {
    AssignmentsFromTable(table, getenv, parse);
  }

  /** The assignments are the rows whose variables are set, in the table's order. */
  lemma {:induction false} AssignmentsAre(table: seq<(string, string)>, getenv: string -> Option<string>,
                                          parse: (string, string) -> Scalar) returns (rows: seq<int>)
    ensures RowsSet(table, getenv, parse, Assignments(table, getenv, parse), rows)
  {
    if table == [] {
      rows := [];
    } else {
      var front, last := table[..|table| - 1], table[|table| - 1];
      rows := AssignmentsAre(front, getenv, parse);
      var env := Assignments(front, getenv, parse);
      assert table == front + [last];
      if getenv(last.0).Some? {
        RowSet(front, getenv, parse, env, rows, last);
        rows := rows + [|front|];
      } else {
        RowNotSet(front, getenv, parse, env, rows, last);
      }
    }
  }

  /** `rows` are the numbers of the rows whose variables are set, ascending, and `env` is what
      they assign. */
  ghost predicate RowsSet(table: seq<(string, string)>, getenv: string -> Option<string>,
                          parse: (string, string) -> Scalar, env: seq<Assignment>, rows: seq<int>)
  {
    && |rows| == |env|
    && (forall k :: 0 <= k < |rows| ==> 0 <= rows[k] < |table| && AssignedBy(table[rows[k]], env[k], getenv, parse))
    && (forall k, l :: 0 <= k < l < |rows| ==> rows[k] < rows[l])
    && (forall i :: 0 <= i < |table| && getenv(table[i].0).Some? ==> i in rows)
  }

  lemma RowSet(table: seq<(string, string)>, getenv: string -> Option<string>, parse: (string, string) -> Scalar,
               env: seq<Assignment>, rows: seq<int>, row: (string, string))
    requires RowsSet(table, getenv, parse, env, rows) && getenv(row.0).Some?
    ensures RowsSet(table + [row], getenv, parse, env + [(row.1, parse(getenv(row.0).value, row.1))], rows + [|table|])
  {
  }

  lemma RowNotSet(table: seq<(string, string)>, getenv: string -> Option<string>, parse: (string, string) -> Scalar,
                  env: seq<Assignment>, rows: seq<int>, row: (string, string))
    requires RowsSet(table, getenv, parse, env, rows) && getenv(row.0).None?
    ensures RowsSet(table + [row], getenv, parse, env, rows)
  {
  }

  /** The row's variable has a value, and the assignment is that value, parsed, for its path. */
  predicate AssignedBy(row: (string, string), a: Assignment, getenv: string -> Option<string>,
                       parse: (string, string) -> Scalar)
  {
    match getenv(row.0)
    case Some(raw) => a == (row.1, parse(raw, row.1))
    case None => false
  }

  /** Row `i` is the last one for its path whose variable is set. */
  predicate LastSet(table: seq<(string, string)>, getenv: string -> Option<string>, i: nat)
    requires i < |table|
  {
    && getenv(table[i].0).Some?
    && forall j :: i < j < |table| && Split(table[j].1) == Split(table[i].1) ==> getenv(table[j].0).None?
  }

  /** No row whose variable is set has `q` as its path, or a path that leads to `q` or on from it. */
  predicate Unset(table: seq<(string, string)>, getenv: string -> Option<string>, q: Path) {
    forall i :: 0 <= i < |table| && getenv(table[i].0).Some? ==> !(Split(table[i].1) <= q) && !(q <= Split(table[i].1))
  }

  lemma ValueOfLast(env: seq<Assignment>, own: nat, q: Path)
    requires PrefixFree(env) && own < |env| && Split(env[own].0) == q
    requires forall j :: own < j < |env| ==> Split(env[j].0) != q
    ensures LastValue(env, q) == Some(env[own].1)
  {
    var k := LastValueAt(env, q);
    assert env[own] in env;
    assert forall i :: 0 <= i < |env| ==> env[i] in env;
    assert k == own;
  }

  lemma LastSetValue(table: seq<(string, string)>, getenv: string -> Option<string>,
                     parse: (string, string) -> Scalar, i: nat)
    requires Apart(table) && i < |table| && LastSet(table, getenv, i)
    ensures LastValue(Assignments(table, getenv, parse), Split(table[i].1)) ==
            Some(parse(getenv(table[i].0).value, table[i].1))
  {
    var env := Assignments(table, getenv, parse);
    var rows := AssignmentsAre(table, getenv, parse);
    AssignmentsApart(table, getenv, parse);
    var own :| 0 <= own < |rows| && rows[own] == i;
    assert AssignedBy(table[i], env[own], getenv, parse);
    forall k | own < k < |env| ensures Split(env[k].0) != Split(table[i].1) {
      assert AssignedBy(table[rows[k]], env[k], getenv, parse);
      assert rows[own] < rows[k];
    }
    ValueOfLast(env, own, Split(table[i].1));
  }

  lemma TouchedIffSet(table: seq<(string, string)>, getenv: string -> Option<string>,
                      parse: (string, string) -> Scalar, q: Path)
    ensures Touched(Assignments(table, getenv, parse), q) <==> !Unset(table, getenv, q)
  {
    var env := Assignments(table, getenv, parse);
    var rows := AssignmentsAre(table, getenv, parse);
    if a :| a in env && (Split(a.0) <= q || q <= Split(a.0)) {
      var k :| 0 <= k < |env| && env[k] == a;
      assert AssignedBy(table[rows[k]], env[k], getenv, parse);
    }
    if !Unset(table, getenv, q) {
      var i :| 0 <= i < |table| && getenv(table[i].0).Some? && (Split(table[i].1) <= q || q <= Split(table[i].1));
      var k :| 0 <= k < |rows| && rows[k] == i;
      assert AssignedBy(table[i], env[k], getenv, parse);
      assert env[k] in env;
    }
  }

  /** One of the two leads through the other. */
  predicate Along(p: Path, q: Path) {
    p != q && (p <= q || q <= p)
  }

  lemma NothingAlong(table: seq<(string, string)>, getenv: string -> Option<string>,
                     parse: (string, string) -> Scalar, i: nat, q: Path)
    requires Apart(table) && i < |table| && Along(Split(table[i].1), q)
    ensures LastValue(Assignments(table, getenv, parse), q).None?
  {
    var env := Assignments(table, getenv, parse);
    AssignmentsFromTable(table, getenv, parse);
    AssignmentsApart(table, getenv, parse);
    LastValueIs(env, q);
    assert table[i] in table;
    forall a | a in env ensures Split(a.0) != q {
      var row :| row in table && row.1 == a.0;
    }
  }

  /** What `q` reads, told from the rows: the last row for it that is set; nothing when it lies
      along the path of one that is set; and the file when no row has to do with it. */
  ghost predicate ReadsRows(loaded: Node, file: Node, table: seq<(string, string)>, getenv: string -> Option<string>,
                            parse: (string, string) -> Scalar, q: Path)
  {
    && (forall i :: 0 <= i < |table| && LastSet(table, getenv, i) && Split(table[i].1) == q ==>
          LeafAt(loaded, q) == Some(parse(getenv(table[i].0).value, table[i].1)))
    && (forall i :: 0 <= i < |table| && getenv(table[i].0).Some? && Along(Split(table[i].1), q) ==>
          LeafAt(loaded, q) == None)
    && (Unset(table, getenv, q) ==> LeafAt(loaded, q) == LeafAt(file, q))
  }

  /** With such a table the overrides never raise, whatever is set and however it parses, and
      every path then reads as the rows say. */
  lemma TableLoads(file: Node, table: seq<(string, string)>, getenv: string -> Option<string>,
                   parse: (string, string) -> Scalar, q: Path)
    requires file.Section? && Apart(table)
    ensures var t := EnvTree(Assignments(table, getenv, parse));
      && t.Some? && t.value.Section?
      && ReadsRows(Overlay(file, t.value), file, table, getenv, parse, q)
  {
    var env := Assignments(table, getenv, parse);
    AssignmentsApart(table, getenv, parse);
    LoadedConfigReads(file, env, q);
    TouchedIffSet(table, getenv, parse, q);
    LastValueIs(env, q);
    forall i | 0 <= i < |table| && LastSet(table, getenv, i) && Split(table[i].1) == q
      ensures LastValue(env, q) == Some(parse(getenv(table[i].0).value, table[i].1))
    {
      LastSetValue(table, getenv, parse, i);
    }
    forall i | 0 <= i < |table| && getenv(table[i].0).Some? && Along(Split(table[i].1), q)
      ensures LastValue(env, q).None? && !Unset(table, getenv, q)
    {
      NothingAlong(table, getenv, parse, i, q);
    }
  }

  /** The repository's own paths are of that kind. */
  lemma MappedTableLoads(file: Node, table: seq<(string, string)>, getenv: string -> Option<string>,
                         parse: (string, string) -> Scalar, q: Path)
    requires file.Section? && MappedTable(table)
    ensures var t := EnvTree(Assignments(table, getenv, parse));
      && t.Some? && t.value.Section?
      && ReadsRows(Overlay(file, t.value), file, table, getenv, parse, q)
  {
    MappedApart(table);
    TableLoads(file, table, getenv, parse, q);
  }

  /** The same over all paths at once. */
  lemma RowsDecide(loaded: Node, file: Node, table: seq<(string, string)>, getenv: string -> Option<string>,
                   parse: (string, string) -> Scalar)
    requires forall q :: ReadsRows(loaded, file, table, getenv, parse, q)
    ensures forall i :: 0 <= i < |table| && LastSet(table, getenv, i) ==>
              LeafAt(loaded, Split(table[i].1)) == Some(parse(getenv(table[i].0).value, table[i].1))
    ensures forall q, i :: 0 <= i < |table| && getenv(table[i].0).Some? && Along(Split(table[i].1), q) ==>
              LeafAt(loaded, q) == None
    ensures forall q :: Unset(table, getenv, q) ==> LeafAt(loaded, q) == LeafAt(file, q)
  {
    forall i | 0 <= i < |table| && LastSet(table, getenv, i)
      ensures LeafAt(loaded, Split(table[i].1)) == Some(parse(getenv(table[i].0).value, table[i].1))
    {
      assert ReadsRows(loaded, file, table, getenv, parse, Split(table[i].1));
    }
    forall q, i | 0 <= i < |table| && getenv(table[i].0).Some? && Along(Split(table[i].1), q)
      ensures LeafAt(loaded, q) == None
    {
      assert ReadsRows(loaded, file, table, getenv, parse, q);
    }
    forall q | Unset(table, getenv, q) ensures LeafAt(loaded, q) == LeafAt(file, q) {
      assert ReadsRows(loaded, file, table, getenv, parse, q);
    }
  }

  /** Apply the environment overrides to a file's tree. */
  method LoadConfig(file: Node, table: seq<(string, string)>, getenv: string -> Option<string>,
                    parse: (string, string) -> Scalar) returns (r: Option<Node>)
    requires file.Section?
    ensures var t := EnvTree(Assignments(table, getenv, parse));
      && (r.Some? <==> t.Some?)
      && (t.Some? ==> t.value.Section? && r.value == Overlay(file, t.value))
    ensures Apart(table) ==>
      && r.Some?
      && (forall i :: 0 <= i < |table| && LastSet(table, getenv, i) ==>
            LeafAt(r.value, Split(table[i].1)) == Some(parse(getenv(table[i].0).value, table[i].1)))
      && (forall q, i :: 0 <= i < |table| && getenv(table[i].0).Some? && Along(Split(table[i].1), q) ==>
            LeafAt(r.value, q) == None)
      && (forall q :: Unset(table, getenv, q) ==> LeafAt(r.value, q) == LeafAt(file, q))
  {
    var env := GetEnvConfig(table, getenv, parse);
    if env.None? {
      assert Apart(table) ==> false by {
        if Apart(table) {
          TableLoads(file, table, getenv, parse, []);
        }
      }
      return None;
    }
    EnvTreeSays(Assignments(table, getenv, parse), []);
    var merged := MergeConfig(file, env.value);
    if Apart(table) {
      forall q ensures ReadsRows(merged, file, table, getenv, parse, q) {
        TableLoads(file, table, getenv, parse, q);
      }
      RowsDecide(merged, file, table, getenv, parse);
    }
    r := Some(merged);
  }
}
