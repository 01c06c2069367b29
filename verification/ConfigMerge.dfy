/** The two deep mergers: `ConfigDiff._deep_merge_with_conflicts` with its conflict policies,
    and `ConfigManager._merge_config`. */
module ConfigMerge {
  import opened Wrappers
  import opened ConfigTree

  /** Every strategy name other than "last_wins" and "first_wins" is manual, with or without a
      resolver. A resolver may raise, and return the null leaf for no answer. */
  datatype Policy = LastWins | FirstWins | Manual(resolver: Option<(string, Node, Node) -> Option<Node>>)

  /** A conflict message: the key, not the whole path, and both values. */
  datatype Conflict = Conflict(key: string, was: Node, now: Node)

  function Resolve(policy: Policy, k: string, was: Node, now: Node): Node {
    match policy
    case LastWins => now
    case FirstWins => was
    case Manual(None) => was
    case Manual(Some(f)) =>
      match f(k, was, now)
      case Some(x) => if x == Leaf(Null) then was else x
      case None => was
  }

  predicate BothSections(a: Node, b: Node) {
    a.Section? && b.Section?
  }

  function Merge(a: Node, b: Node, policy: Policy): (m: Node)
    requires BothSections(a, b)
    ensures m.Section? && m.kids.Keys == a.kids.Keys + b.kids.Keys
    decreases b, 0
  {
    Section(map k | k in a.kids.Keys + b.kids.Keys ::
              if k !in b.kids then a.kids[k]
              else if k !in a.kids then b.kids[k]
              else MergeKid(k, a.kids[k], b.kids[k], policy))
  }

  function MergeKid(k: string, x: Node, y: Node, policy: Policy): Node
    decreases y, 1
  {
    if BothSections(x, y) then Merge(x, y, policy)
    else if x != y then Resolve(policy, k, x, y)
    else y
  }

  /** Every conflict at every depth; the policy has no part in it. */
  function Conflicts(a: Node, b: Node): set<Conflict>
    requires BothSections(a, b)
    decreases b, 0
  {
    set k, c | k in a.kids && k in b.kids && c in KidConflicts(k, a.kids[k], b.kids[k]) :: c
  }

  function KidConflicts(k: string, x: Node, y: Node): set<Conflict>
    decreases y, 1
  {
    if BothSections(x, y) then Conflicts(x, y)
    else if x != y then {Conflict(k, x, y)}
    else {}
  }

  /** `ConfigManager._merge_config`. */
  function Overlay(a: Node, b: Node): (m: Node)
    requires BothSections(a, b)
    ensures m.Section? && m.kids.Keys == a.kids.Keys + b.kids.Keys
    decreases b
  {
    Section(map k | k in a.kids.Keys + b.kids.Keys ::
              if k !in b.kids then a.kids[k]
              else if k in a.kids && BothSections(a.kids[k], b.kids[k]) then Overlay(a.kids[k], b.kids[k])
              else b.kids[k])
  }

  // ----- The merges as the repository runs them: a copy of the base, then one loop over the
  // ----- override's items, in whatever order they come.

  method DeepMergeWithConflicts(base: Node, override: Node, policy: Policy)
    returns (result: Node, conflicts: seq<Conflict>)
    requires BothSections(base, override)
    ensures result == Merge(base, override, policy)
    ensures forall c :: c in conflicts <==> c in Conflicts(base, override)
    decreases override
  {
    var merged := base.kids;
    conflicts := [];
    ghost var done: set<string> := {};
    var todo := override.kids.Keys;
    while todo != {}
      invariant todo !! done && todo + done == override.kids.Keys
      invariant MergedSoFar(base, override, policy, done, merged)
      invariant ConflictsSoFar(base, override, done, conflicts)
      decreases todo
    {
      var key :| key in todo;
      todo := todo - {key};
      var value := override.kids[key];
      ghost var before := conflicts;
      assert key in merged <==> key in base.kids;
      if key in merged && BothSections(merged[key], value) {
        var sub, subConflicts := DeepMergeWithConflicts(merged[key], value, policy);
        merged := merged[key := sub];
        conflicts := conflicts + subConflicts;
      } else if key in merged && merged[key] != value {
        conflicts := conflicts + [Conflict(key, merged[key], value)];
        merged := merged[key := Resolve(policy, key, merged[key], value)];
      } else {
        merged := merged[key := value];
      }
      ConflictsGrow(base, override, done, key, before, conflicts);
      done := done + {key};
    }
    result := Section(merged);
    SameSection(result, Merge(base, override, policy));
    AllConflicts(base, override, conflicts);
  }

  /** The merge loop after the keys in `done`. */
  ghost predicate MergedSoFar(base: Node, override: Node, policy: Policy, done: set<string>, merged: map<string, Node>)
    requires BothSections(base, override)
  {
    && done <= override.kids.Keys && merged.Keys == base.kids.Keys + done
    && forall k :: k in merged ==>
         merged[k] == if k in done then Merge(base, override, policy).kids[k] else base.kids[k]
  }

  ghost predicate ConflictsSoFar(base: Node, override: Node, done: set<string>, conflicts: seq<Conflict>)
    requires BothSections(base, override)
  {
    && done <= override.kids.Keys
    && forall c :: c in conflicts <==>
         exists k :: k in done && k in base.kids && c in KidConflicts(k, base.kids[k], override.kids[k])
  }

  lemma ConflictsGrow(base: Node, override: Node, done: set<string>, key: string,
                       before: seq<Conflict>, after: seq<Conflict>)
    requires BothSections(base, override) && key in override.kids && ConflictsSoFar(base, override, done, before)
    requires forall c :: c in after <==>
      c in before || (key in base.kids && c in KidConflicts(key, base.kids[key], override.kids[key]))
    ensures ConflictsSoFar(base, override, done + {key}, after)
  {
  }

  lemma AllConflicts(base: Node, override: Node, conflicts: seq<Conflict>)
    requires BothSections(base, override) && ConflictsSoFar(base, override, override.kids.Keys, conflicts)
    ensures forall c :: c in conflicts <==> c in Conflicts(base, override)
  {
  }

  method MergeConfig(base: Node, override: Node) returns (result: Node)
    requires BothSections(base, override)
    ensures result == Overlay(base, override)
    decreases override
  {
    var merged := base.kids;
    ghost var done: set<string> := {};
    var todo := override.kids.Keys;
    while todo != {}
      invariant todo !! done && todo + done == override.kids.Keys
      invariant merged.Keys == base.kids.Keys + done
      invariant forall k :: k in merged ==>
        merged[k] == if k in done then Overlay(base, override).kids[k] else base.kids[k]
      decreases todo
    {
      var key :| key in todo;
      todo := todo - {key};
      var value := override.kids[key];
      if key in merged && BothSections(merged[key], value) {
        var sub := MergeConfig(merged[key], value);
        merged := merged[key := sub];
      } else {
        merged := merged[key := value];
      }
      done := done + {key};
    }
    result := Section(merged);
  }

  // ----- Laws.

  /** Two nodes with the same keys and the same kid at each key are the same section. */
  lemma SameSection(m: Node, n: Node)
    requires BothSections(m, n) && m.kids.Keys == n.kids.Keys
    requires forall k :: k in m.kids ==> m.kids[k] == n.kids[k]
    ensures m == n
  {
  }

  /** Keeping the first of (a, b) is keeping the last of (b, a). */
  lemma {:induction false} FirstWinsIsLastWinsSwapped(a: Node, b: Node)
    requires BothSections(a, b)
    ensures Merge(a, b, FirstWins) == Merge(b, a, LastWins)
    decreases a
  {
    forall k | k in a.kids && k in b.kids
      ensures MergeKid(k, a.kids[k], b.kids[k], FirstWins) == MergeKid(k, b.kids[k], a.kids[k], LastWins)
    {
      if BothSections(a.kids[k], b.kids[k]) {
        FirstWinsIsLastWinsSwapped(a.kids[k], b.kids[k]);
      }
    }
    SameSection(Merge(a, b, FirstWins), Merge(b, a, LastWins));
  }

  lemma {:induction false} ManualKeepsBase(a: Node, b: Node)
    requires BothSections(a, b)
    ensures Merge(a, b, Manual(None)) == Merge(a, b, FirstWins)
    decreases b
  {
    forall k | k in a.kids && k in b.kids
      ensures MergeKid(k, a.kids[k], b.kids[k], Manual(None)) == MergeKid(k, a.kids[k], b.kids[k], FirstWins)
    {
      if BothSections(a.kids[k], b.kids[k]) {
        ManualKeepsBase(a.kids[k], b.kids[k]);
      }
    }
    SameSection(Merge(a, b, Manual(None)), Merge(a, b, FirstWins));
  }

  lemma KidConflictsIncluded(a: Node, b: Node, k: string)
    requires BothSections(a, b) && k in a.kids && k in b.kids
    ensures KidConflicts(k, a.kids[k], b.kids[k]) <= Conflicts(a, b)
  {
  }

  /** No conflict is reported exactly when the order of the two configurations does not
      matter. */
  lemma {:induction false} NoConflictIffCommute(a: Node, b: Node)
    requires BothSections(a, b)
    ensures Conflicts(a, b) == {} <==> Merge(a, b, LastWins) == Merge(b, a, LastWins)
    decreases a
  {
    var m, n := Merge(a, b, LastWins), Merge(b, a, LastWins);
    forall k | k in a.kids && k in b.kids
      ensures KidConflicts(k, a.kids[k], b.kids[k]) == {} <==> m.kids[k] == n.kids[k]
    {
      assert m.kids[k] == MergeKid(k, a.kids[k], b.kids[k], LastWins);
      assert n.kids[k] == MergeKid(k, b.kids[k], a.kids[k], LastWins);
      if BothSections(a.kids[k], b.kids[k]) {
        NoConflictIffCommute(a.kids[k], b.kids[k]);
      } else if a.kids[k] != b.kids[k] {
        assert Conflict(k, a.kids[k], b.kids[k]) in KidConflicts(k, a.kids[k], b.kids[k]);
      }
    }
    if Conflicts(a, b) == {} {
      forall k | k in a.kids && k in b.kids ensures KidConflicts(k, a.kids[k], b.kids[k]) == {} {
        KidConflictsIncluded(a, b, k);
      }
      SameSection(m, n);
    } else {
      var c :| c in Conflicts(a, b);
      var k :| k in a.kids && k in b.kids && c in KidConflicts(k, a.kids[k], b.kids[k]);
      assert m.kids[k] != n.kids[k];
    }
  }

  /** The two mergers agree. */
  lemma {:induction false} LastWinsIsOverlay(a: Node, b: Node)
    requires BothSections(a, b)
    ensures Merge(a, b, LastWins) == Overlay(a, b)
    decreases b
  {
    forall k | k in a.kids && k in b.kids
      ensures MergeKid(k, a.kids[k], b.kids[k], LastWins) == Overlay(a, b).kids[k]
    {
      if BothSections(a.kids[k], b.kids[k]) {
        LastWinsIsOverlay(a.kids[k], b.kids[k]);
      }
    }
    SameSection(Merge(a, b, LastWins), Overlay(a, b));
  }

  lemma EmptyIsIdentity(a: Node)
    requires a.Section?
    ensures Overlay(a, EMPTY) == a && Overlay(EMPTY, a) == a
  {
  }

  lemma {:induction false} OverlaySelf(a: Node)
    requires a.Section?
    ensures Overlay(a, a) == a
    decreases a
  {
    forall k | k in a.kids && a.kids[k].Section? ensures Overlay(a.kids[k], a.kids[k]) == a.kids[k] {
      OverlaySelf(a.kids[k]);
    }
    SameSection(Overlay(a, a), a);
  }

  /** Merging the same override twice is merging it once. */
  lemma {:induction false} OverlayTwice(a: Node, b: Node)
    requires BothSections(a, b)
    ensures Overlay(Overlay(a, b), b) == Overlay(a, b)
    decreases b
  {
    var m := Overlay(a, b);
    forall k | k in b.kids && b.kids[k].Section?
      ensures m.kids[k].Section? && Overlay(m.kids[k], b.kids[k]) == m.kids[k]
    {
      if k in a.kids && a.kids[k].Section? {
        OverlayTwice(a.kids[k], b.kids[k]);
      } else {
        OverlaySelf(b.kids[k]);
      }
    }
    SameSection(Overlay(m, b), m);
  }

  /** `c` already settles everything in `a`: it has each of its keys, and a section where `a`
      has one that it does not replace by a leaf. */
  predicate Covers(c: Node, a: Node)
    requires BothSections(c, a)
    decreases a
  {
    forall k :: k in a.kids ==>
      k in c.kids && (BothSections(c.kids[k], a.kids[k]) ==> Covers(c.kids[k], a.kids[k]))
  }

  lemma {:induction false} CoveredIffAbsorbed(a: Node, c: Node)
    requires BothSections(a, c)
    ensures Covers(c, a) <==> Overlay(a, c) == c
    decreases a
  {
    forall k | k in a.kids && k in c.kids && BothSections(a.kids[k], c.kids[k])
      ensures Covers(c.kids[k], a.kids[k]) <==> Overlay(a.kids[k], c.kids[k]) == c.kids[k]
    {
      CoveredIffAbsorbed(a.kids[k], c.kids[k]);
    }
    if Covers(c, a) {
      SameSection(Overlay(a, c), c);
    }
  }

  /** Nowhere does `b` put a leaf between two sections of `a` and `c`, unless the section of
      `c` covers that of `a`. */
  predicate NoSandwich(a: Node, b: Node, c: Node)
    requires a.Section? && b.Section? && c.Section?
    decreases a
  {
    forall k :: k in a.kids && k in b.kids && k in c.kids && BothSections(a.kids[k], c.kids[k]) ==>
      if b.kids[k].Section? then NoSandwich(a.kids[k], b.kids[k], c.kids[k]) else Covers(c.kids[k], a.kids[k])
  }

  /** Three configurations may be merged in either grouping exactly when no leaf is sandwiched;
      so in particular when no path is a leaf in one and a section in another. */
  lemma {:induction false} OverlayAssociativeIff(a: Node, b: Node, c: Node)
    requires a.Section? && b.Section? && c.Section?
    ensures Overlay(Overlay(a, b), c) == Overlay(a, Overlay(b, c)) <==> NoSandwich(a, b, c)
    decreases a
  {
    var m, n := Overlay(Overlay(a, b), c), Overlay(a, Overlay(b, c));
    forall k | k in a.kids && k in b.kids && k in c.kids && BothSections(a.kids[k], c.kids[k])
      ensures m.kids[k] == n.kids[k] <==>
              if b.kids[k].Section? then NoSandwich(a.kids[k], b.kids[k], c.kids[k]) else Covers(c.kids[k], a.kids[k])
    {
      if b.kids[k].Section? {
        OverlayAssociativeIff(a.kids[k], b.kids[k], c.kids[k]);
      } else {
        CoveredIffAbsorbed(a.kids[k], c.kids[k]);
      }
    }
    if NoSandwich(a, b, c) {
      SameSection(m, n);
    }
  }

  /** `{k: {x: 1}}`, `{k: 2}` and `{k: {}}`: merged from the left the leaf wipes out `x`,
      merged from the right it is wiped out first. */
  lemma SandwichedLeaf()
    ensures var a, b, c := Section(map["k" := Section(map["x" := Leaf(Number(1))])]),
                           Section(map["k" := Leaf(Number(2))]),
                           Section(map["k" := EMPTY]);
      && !NoSandwich(a, b, c)
      && Overlay(Overlay(a, b), c) == c != a == Overlay(a, Overlay(b, c))
  {
    var a, b, c := Section(map["k" := Section(map["x" := Leaf(Number(1))])]),
                   Section(map["k" := Leaf(Number(2))]),
                   Section(map["k" := EMPTY]);
    EmptyIsIdentity(a.kids["k"]);
    SameSection(Overlay(Overlay(a, b), c), c);
    SameSection(Overlay(b, c), c);
    SameSection(Overlay(a, c), a);
    assert "x" !in c.kids["k"].kids;
  }

  // ----- What a merged configuration reads.

  /** `b` has a say at `p`: it has something at `p`, or a leaf on the way. */
  predicate Decides(b: Node, p: Path) {
    p == [] || b.Leaf? || (p[0] in b.kids && Decides(b.kids[p[0]], p[1..]))
  }

  /** Every path reads from the override where it has a say and from the base elsewhere. */
  lemma {:induction false} OverlayReads(a: Node, b: Node, p: Path)
    requires BothSections(a, b)
    ensures LeafAt(Overlay(a, b), p) == if Decides(b, p) then LeafAt(b, p) else LeafAt(a, p)
    decreases b
  {
    if p != [] && p[0] in b.kids {
      if p[0] in a.kids && BothSections(a.kids[p[0]], b.kids[p[0]]) {
        OverlayReads(a.kids[p[0]], b.kids[p[0]], p[1..]);
      } else {
        UndecidedIsAbsent(b.kids[p[0]], p[1..]);
        assert Overlay(a, b).kids[p[0]] == b.kids[p[0]];
        assert b.kids[p[0]].Leaf? ==> Decides(b.kids[p[0]], p[1..]);
        if p[0] in a.kids && !Decides(b, p) {
          assert Lookup(a.kids[p[0]], p[1..]) == None;
        }
      }
    }
  }

  lemma {:induction false} UndecidedIsAbsent(b: Node, p: Path)
    ensures !Decides(b, p) ==> p != [] && Lookup(b, p) == None
  {
    if p != [] && b.Section? && p[0] in b.kids {
      UndecidedIsAbsent(b.kids[p[0]], p[1..]);
    }
  }

  // ----- `merge_configs`: any number of configurations, one after the other.

  datatype Strategy = Deep | Shallow

  /** The shallow merge replaces whole entries and never calls a resolver. */
  function ShallowMerge(a: Node, b: Node, policy: Policy): (m: Node)
    requires BothSections(a, b)
    ensures m.Section? && m.kids.Keys == a.kids.Keys + b.kids.Keys
  {
    Section(map k | k in a.kids.Keys + b.kids.Keys ::
              if k !in b.kids then a.kids[k]
              else if k in a.kids && a.kids[k] != b.kids[k] && !policy.LastWins? then a.kids[k]
              else b.kids[k])
  }

  function ShallowConflicts(a: Node, b: Node): set<Conflict>
    requires BothSections(a, b)
  {
    set k | k in a.kids && k in b.kids && a.kids[k] != b.kids[k] :: Conflict(k, a.kids[k], b.kids[k])
  }

  method ShallowMergeWithConflicts(base: Node, override: Node, policy: Policy)
    returns (result: Node, conflicts: seq<Conflict>)
    requires BothSections(base, override)
    ensures result == ShallowMerge(base, override, policy)
    ensures forall c :: c in conflicts <==> c in ShallowConflicts(base, override)
  {
    var merged := base.kids;
    conflicts := [];
    ghost var done: set<string> := {};
    var todo := override.kids.Keys;
    while todo != {}
      invariant todo !! done && todo + done == override.kids.Keys
      invariant merged.Keys == base.kids.Keys + done
      invariant forall k :: k in merged ==>
        merged[k] == if k in done then ShallowMerge(base, override, policy).kids[k] else base.kids[k]
      invariant forall c :: c in conflicts <==> c in ShallowConflicts(base, override) && c.key in done
      decreases todo
    {
      var key :| key in todo;
      todo := todo - {key};
      var value := override.kids[key];
      if key in merged && merged[key] != value {
        conflicts := conflicts + [Conflict(key, merged[key], value)];
        if policy.LastWins? {
          merged := merged[key := value];
        }
      } else {
        merged := merged[key := value];
      }
      done := done + {key};
    }
    result := Section(merged);
  }

  function MergeStep(m: Node, c: Node, strategy: Strategy, policy: Policy): (r: Node)
    requires BothSections(m, c)
    ensures r.Section?
  {
    if strategy.Deep? then Merge(m, c, policy) else ShallowMerge(m, c, policy)
  }

  function StepConflicts(m: Node, c: Node, strategy: Strategy): set<Conflict>
    requires BothSections(m, c)
  {
    if strategy.Deep? then Conflicts(m, c) else ShallowConflicts(m, c)
  }

  function MergeAll(base: Node, configs: seq<Node>, strategy: Strategy, policy: Policy): (m: Node)
    requires base.Section? && forall c :: c in configs ==> c.Section?
    ensures m.Section?
  {
    if configs == [] then base
    else MergeStep(MergeAll(base, configs[..|configs| - 1], strategy, policy), configs[|configs| - 1], strategy, policy)
  }

  /** Configuration number `i` meets conflict `c` when its turn comes. */
  ghost predicate MeetsConflict(base: Node, configs: seq<Node>, strategy: Strategy, policy: Policy, i: int, c: Conflict)
    requires base.Section? && forall c :: c in configs ==> c.Section?
  {
    && 0 <= i < |configs|
    && c in StepConflicts(MergeAll(base, configs[..i], strategy, policy), configs[i], strategy)
  }

  method MergeConfigs(base: Node, configs: seq<Node>, strategy: Strategy, policy: Policy)
    returns (merged: Node, log: seq<(int, Conflict)>)
    requires base.Section? && forall c :: c in configs ==> c.Section?
    ensures merged == MergeAll(base, configs, strategy, policy)
    ensures forall i, c :: (i, c) in log <==> MeetsConflict(base, configs, strategy, policy, i, c)
  {
    merged, log := base, [];
    for n := 0 to |configs|
      invariant merged == MergeAll(base, configs[..n], strategy, policy)
      invariant forall i, c :: (i, c) in log <==> i < n && MeetsConflict(base, configs, strategy, policy, i, c)
    {
      ghost var before := merged;
      var conflicts: seq<Conflict>;
      if strategy.Deep? {
        merged, conflicts := DeepMergeWithConflicts(merged, configs[n], policy);
      } else {
        merged, conflicts := ShallowMergeWithConflicts(merged, configs[n], policy);
      }
      assert forall c :: c in conflicts <==> MeetsConflict(base, configs, strategy, policy, n, c);
      var entries := seq(|conflicts|, j requires 0 <= j < |conflicts| => (n, conflicts[j]));
      assert forall i, c :: (i, c) in entries <==> i == n && c in conflicts by {
        forall c | c in conflicts ensures (n, c) in entries {
          var j :| 0 <= j < |conflicts| && conflicts[j] == c;
          assert entries[j] == (n, c);
        }
      }
      log := log + entries;
      assert configs[..n + 1][..n] == configs[..n];
    }
    assert configs[..|configs|] == configs;
  }

  /** The reading of the last configuration that has a say at `p`, or of the base. */
  function LastReading(base: Node, configs: seq<Node>, p: Path): Option<Scalar> {
    if configs == [] then LeafAt(base, p)
    else if Decides(configs[|configs| - 1], p) then LeafAt(configs[|configs| - 1], p)
    else LastReading(base, configs[..|configs| - 1], p)
  }

  /** Deep last-wins merging of any number of configurations, path by path. */
  lemma {:induction false} MergeAllReads(base: Node, configs: seq<Node>, p: Path)
    requires base.Section? && forall c :: c in configs ==> c.Section?
    ensures LeafAt(MergeAll(base, configs, Deep, LastWins), p) == LastReading(base, configs, p)
  {
    if configs != [] {
      var front, last := configs[..|configs| - 1], configs[|configs| - 1];
      var m := MergeAll(base, front, Deep, LastWins);
      MergeAllReads(base, front, p);
      LastWinsIsOverlay(m, last);
      OverlayReads(m, last, p);
    }
  }

  // ----- The shallow merge, key by key.

  /** The whole entry at a top key. */
  function Top(n: Node, k: string): Option<Node>
    requires n.Section?
  {
    if k in n.kids then Some(n.kids[k]) else None
  }

  /** Keeping the last, each key holds the override's whole entry where it has one, and the
      base's elsewhere; keeping the first, the other way round. */
  lemma ShallowReads(a: Node, b: Node, k: string)
    requires BothSections(a, b)
    ensures Top(ShallowMerge(a, b, LastWins), k) == if k in b.kids then Top(b, k) else Top(a, k)
    ensures Top(ShallowMerge(a, b, FirstWins), k) == if k in a.kids then Top(a, k) else Top(b, k)
  {
  }

  lemma ShallowFirstIsLastSwapped(a: Node, b: Node)
    requires BothSections(a, b)
    ensures ShallowMerge(a, b, FirstWins) == ShallowMerge(b, a, LastWins)
  {
    SameSection(ShallowMerge(a, b, FirstWins), ShallowMerge(b, a, LastWins));
  }

  /** Manual keeps the first, even where a resolver would have chosen something else. */
  lemma ShallowManualIsFirst(a: Node, b: Node, resolver: Option<(string, Node, Node) -> Option<Node>>)
    requires BothSections(a, b)
    ensures ShallowMerge(a, b, Manual(resolver)) == ShallowMerge(a, b, FirstWins)
  {
  }

  /** A conflict is a key of both with different entries, and there is none exactly when the
      order of the two configurations does not matter. */
  lemma NoShallowConflictIffCommute(a: Node, b: Node)
    requires BothSections(a, b)
    ensures forall c :: c in ShallowConflicts(a, b) <==>
              Top(a, c.key) == Some(c.was) && Top(b, c.key) == Some(c.now) && c.was != c.now
    ensures ShallowConflicts(a, b) == {} <==> ShallowMerge(a, b, LastWins) == ShallowMerge(b, a, LastWins)
  {
    var m, n := ShallowMerge(a, b, LastWins), ShallowMerge(b, a, LastWins);
    if ShallowConflicts(a, b) == {} {
      forall k | k in a.kids && k in b.kids ensures a.kids[k] == b.kids[k] {
        assert Conflict(k, a.kids[k], b.kids[k]) !in ShallowConflicts(a, b);
      }
      SameSection(m, n);
    } else {
      var c :| c in ShallowConflicts(a, b);
      assert m.kids[c.key] != n.kids[c.key];
    }
  }

  /** A chain of shallow merges that keep the last holds, at each key, the entry of the last
      configuration that has the key; number -1 is the base. */
  lemma {:induction false} ShallowChainKeepsLast(base: Node, configs: seq<Node>, k: string) returns (i: int)
    requires base.Section? && forall c :: c in configs ==> c.Section?
    ensures -1 <= i < |configs| && forall j :: i < j < |configs| ==> k !in configs[j].kids
    ensures i >= 0 ==> k in configs[i].kids
    ensures Top(MergeAll(base, configs, Shallow, LastWins), k) == Top(if i < 0 then base else configs[i], k)
  {
    if configs == [] {
      i := -1;
    } else {
      var front, last := configs[..|configs| - 1], configs[|configs| - 1];
      i := ShallowChainKeepsLast(base, front, k);
      ShallowReads(MergeAll(base, front, Shallow, LastWins), last, k);
      if k in last.kids {
        i := |configs| - 1;
      }
    }
  }

  /** One that keeps the first, the entry of the first that has the key, the base before all
      others. */
  lemma {:induction false} ShallowChainKeepsFirst(base: Node, configs: seq<Node>, k: string) returns (i: int)
    requires base.Section? && forall c :: c in configs ==> c.Section?
    ensures -1 <= i < |configs| && (i >= 0 ==> k !in base.kids)
    ensures forall j :: 0 <= j < i ==> k !in configs[j].kids
    ensures i == -1 ==> k in base.kids || forall j :: 0 <= j < |configs| ==> k !in configs[j].kids
    ensures i >= 0 ==> k in configs[i].kids
    ensures Top(MergeAll(base, configs, Shallow, FirstWins), k) == Top(if i < 0 then base else configs[i], k)
  {
    if configs == [] {
      i := -1;
    } else {
      var front, last := configs[..|configs| - 1], configs[|configs| - 1];
      i := ShallowChainKeepsFirst(base, front, k);
      ShallowReads(MergeAll(base, front, Shallow, FirstWins), last, k);
      if i < 0 && k !in base.kids && k in last.kids {
        i := |configs| - 1;
      }
    }
  }

  lemma {:induction false} ShallowManualChain(base: Node, configs: seq<Node>,
                                              resolver: Option<(string, Node, Node) -> Option<Node>>)
    requires base.Section? && forall c :: c in configs ==> c.Section?
    ensures MergeAll(base, configs, Shallow, Manual(resolver)) == MergeAll(base, configs, Shallow, FirstWins)
  {
    if configs != [] {
      ShallowManualChain(base, configs[..|configs| - 1], resolver);
    }
  }

  // ----- The deep merge at any depth.

  /** Where both have a section, the merge has the merge of the two. */
  lemma {:induction false} MergedSections(a: Node, b: Node, policy: Policy, p: Path, x: Node, y: Node)
    requires BothSections(a, b) && BothSections(x, y) && Lookup(a, p) == Some(x) && Lookup(b, p) == Some(y)
    ensures Lookup(Merge(a, b, policy), p) == Some(Merge(x, y, policy))
  {
    if p != [] {
      var k := p[0];
      assert BothSections(a.kids[k], b.kids[k]) by {
        assert Lookup(a.kids[k], p[1..]) == Some(x) && Lookup(b.kids[k], p[1..]) == Some(y);
      }
      MergedSections(a.kids[k], b.kids[k], policy, p[1..], x, y);
    }
  }

  /** A key in both of two such sections, at any depth: sections are merged, equal values kept,
      and of two others the policy keeps the last, the first, or what the resolver says, and
      the first when it says nothing. */
  lemma MergedKid(a: Node, b: Node, policy: Policy, p: Path, s: Node, t: Node, k: string)
    requires BothSections(a, b) && BothSections(s, t) && Lookup(a, p) == Some(s) && Lookup(b, p) == Some(t)
    ensures var m := Lookup(Merge(a, b, policy), p + [k]);
      if k !in t.kids then m == Top(s, k)
      else if k !in s.kids then m == Top(t, k)
      else
        var x, y := s.kids[k], t.kids[k];
        if x.Section? && y.Section? then m == Some(Merge(x, y, policy))
        else if x == y then m == Some(x)
        else
          match policy
          case LastWins => m == Some(y)
          case FirstWins => m == Some(x)
          case Manual(None) => m == Some(x)
          case Manual(Some(f)) =>
            m == if f(k, x, y) == None || f(k, x, y) == Some(Leaf(Null)) then Some(x) else f(k, x, y)
  {
    MergedSections(a, b, policy, p, s, t);
    LookupAppend(Merge(a, b, policy), p, [k]);
    assert [k][1..] == [];
  }

  /** Both have something at `p` and then `c.key`, not both a section and not the same. */
  predicate Differ(a: Node, b: Node, p: Path, c: Conflict) {
    && Lookup(a, p + [c.key]) == Some(c.was) && Lookup(b, p + [c.key]) == Some(c.now)
    && c.was != c.now && !BothSections(c.was, c.now)
  }

  /** The conflicts reported are these, at every depth. */
  lemma ConflictIff(a: Node, b: Node, c: Conflict)
    requires BothSections(a, b)
    ensures c in Conflicts(a, b) <==> exists p :: Differ(a, b, p, c)
  {
    if c in Conflicts(a, b) {
      var p := ConflictPath(a, b, c);
    }
    if p :| Differ(a, b, p, c) {
      ConflictReported(a, b, p, c);
    }
  }

  lemma DifferBelow(a: Node, b: Node, k: string, p: Path, c: Conflict)
    requires BothSections(a, b) && k in a.kids && k in b.kids
    ensures Differ(a, b, [k] + p, c) <==> Differ(a.kids[k], b.kids[k], p, c)
  {
    assert ([k] + p + [c.key])[1..] == p + [c.key];
  }

  lemma {:induction false} ConflictPath(a: Node, b: Node, c: Conflict) returns (p: Path)
    requires BothSections(a, b) && c in Conflicts(a, b)
    ensures Differ(a, b, p, c)
    decreases b
  {
    var k :| k in a.kids && k in b.kids && c in KidConflicts(k, a.kids[k], b.kids[k]);
    if BothSections(a.kids[k], b.kids[k]) {
      var rest := ConflictPath(a.kids[k], b.kids[k], c);
      DifferBelow(a, b, k, rest, c);
      p := [k] + rest;
    } else {
      p := [];
      assert [] + [c.key] == [k] && [k][1..] == [];
    }
  }

  lemma {:induction false} ConflictReported(a: Node, b: Node, p: Path, c: Conflict)
    requires BothSections(a, b) && Differ(a, b, p, c)
    ensures c in Conflicts(a, b)
  {
    if p == [] {
      assert p + [c.key] == [c.key] && [c.key][1..] == [];
      assert Lookup(a.kids[c.key], []) == Some(c.was) && Lookup(b.kids[c.key], []) == Some(c.now);
      assert c == Conflict(c.key, c.was, c.now);
      assert c in KidConflicts(c.key, a.kids[c.key], b.kids[c.key]);
    } else {
      var k := p[0];
      assert p == [k] + p[1..];
      assert (p + [c.key])[0] == k;
      DifferBelow(a, b, k, p[1..], c);
      assert (p[1..] + [c.key]) != [];
      ConflictReported(a.kids[k], b.kids[k], p[1..], c);
      assert c in KidConflicts(k, a.kids[k], b.kids[k]);
    }
  }
}
