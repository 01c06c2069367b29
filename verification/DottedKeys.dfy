/** Dotted keys: `"a.b.c"` and the path it splits into. */
module DottedKeys {
  import opened Wrappers
  import opened ConfigTree

  predicate DotFree(s: string) {
    forall i :: 0 <= i < |s| ==> s[i] != '.'
  }

  /** `s.split(".")`: never empty, and empty parts are kept. */
  function Split(s: string): (p: Path)
    ensures p != []
  {
    if s == "" then [""]
    else
      var rest := Split(s[1..]);
      if s[0] == '.' then [""] + rest else [[s[0]] + rest[0]] + rest[1..]
  }

  /** `".".join(p)`. */
  function Join(p: Path): string
    requires p != []
  {
    if |p| == 1 then p[0] else p[0] + "." + Join(p[1..])
  }

  /** `f"{prefix}.{key}" if prefix else key`. */
  function CurrentKey(prefix: string, key: string): string {
    if prefix != "" then prefix + "." + key else key
  }

  lemma {:induction false} JoinSplit(s: string)
    ensures Join(Split(s)) == s
  {
    if s != "" {
      JoinSplit(s[1..]);
      var rest := Split(s[1..]);
      if s[0] == '.' {
        assert ([""] + rest)[1..] == rest;
      } else if |rest| > 1 {
        assert Split(s)[1..] == rest[1..];
        assert [s[0]] + (rest[0] + "." + Join(rest[1..])) == [s[0]] + rest[0] + "." + Join(rest[1..]);
      }
      assert s == [s[0]] + s[1..];
    }
  }

  lemma {:induction false} SplitDotFree(s: string)
    requires DotFree(s)
    ensures Split(s) == [s]
  {
    if s != "" {
      SplitDotFree(s[1..]);
      assert s == [s[0]] + s[1..];
    }
  }

  lemma {:induction false} SplitFirst(s: string, t: string)
    requires DotFree(s)
    ensures Split(s + "." + t) == [s] + Split(t)
  {
    if s == "" {
      assert s + "." + t == "." + t;
    } else {
      SplitFirst(s[1..], t);
      assert (s + "." + t)[1..] == s[1..] + "." + t;
      assert s == [s[0]] + s[1..];
    }
  }

  lemma {:induction false} SplitJoin(p: Path)
    requires p != [] && forall i :: 0 <= i < |p| ==> DotFree(p[i])
    ensures Split(Join(p)) == p
  {
    if |p| == 1 {
      SplitDotFree(p[0]);
    } else {
      SplitJoin(p[1..]);
      SplitFirst(p[0], Join(p[1..]));
      assert p == [p[0]] + p[1..];
    }
  }

  lemma {:induction false} JoinLast(p: Path, k: string)
    requires p != []
    ensures Join(p + [k]) == Join(p) + "." + k
  {
    if |p| > 1 {
      JoinLast(p[1..], k);
      assert (p + [k])[1..] == p[1..] + [k];
      assert p[0] + "." + (Join(p[1..]) + "." + k) == (p[0] + "." + Join(p[1..])) + "." + k;
    }
  }

  // ----- The keys of a tree.

  /** Every key at every depth is non-empty and free of dots. */
  predicate Named(n: Node) {
    n.Section? ==> forall k :: k in n.kids ==> k != "" && DotFree(k) && Named(n.kids[k])
  }

  predicate NoNulls(n: Node) {
    match n
    case Leaf(v) => v != Null
    case Section(kids) => forall k :: k in kids ==> NoNulls(kids[k])
  }

  /** `_get_all_keys`: the dotted keys of all leaves. */
  function KeysOf(n: Node, prefix: string): set<string>
    requires n.Section?
    decreases n, 0
  {
    set k, s | k in n.kids && s in KeysAt(n.kids[k], CurrentKey(prefix, k)) :: s
  }

  function KeysAt(n: Node, current: string): set<string>
    decreases n, 1
  {
    if n.Section? then KeysOf(n, current) else {current}
  }

  method GetAllKeys(config: Node, prefix: string) returns (keys: seq<string>)
    requires config.Section?
    ensures forall s :: s in keys <==> s in KeysOf(config, prefix)
    decreases config
  {
    keys := [];
    ghost var done: set<string> := {};
    var todo := config.kids.Keys;
    while todo != {}
      invariant todo !! done && todo + done == config.kids.Keys
      invariant forall s :: s in keys <==>
        exists k :: k in done && s in KeysAt(config.kids[k], CurrentKey(prefix, k))
      decreases todo
    {
      var key :| key in todo;
      todo := todo - {key};
      var currentKey := CurrentKey(prefix, key);
      ghost var before := keys;
      if config.kids[key].Section? {
        var sub := GetAllKeys(config.kids[key], currentKey);
        keys := keys + sub;
      } else {
        keys := keys + [currentKey];
      }
      assert forall s :: s in keys <==> s in before || s in KeysAt(config.kids[key], currentKey);
      done := done + {key};
    }
  }

  /** The prefix string that stands for a path of non-empty parts. */
  function Prefix(p: Path): string {
    if p == [] then "" else Join(p)
  }

  lemma PrefixGrows(p: Path, k: string)
    requires k != "" && (p != [] ==> Join(p) != "")
    ensures CurrentKey(Prefix(p), k) == Join(p + [k]) == Prefix(p + [k]) != ""
  {
    if p == [] {
      assert p + [k] == [k];
    } else {
      JoinLast(p, k);
    }
  }

  lemma {:induction false} KeyOfLeaf(n: Node, pre: Path, p: Path)
    requires n.Section? && Named(n) && p != [] && LeafAt(n, p).Some?
    requires pre != [] ==> Join(pre) != ""
    ensures Join(pre + p) in KeysOf(n, Prefix(pre))
    decreases n
  {
    var k, kid := p[0], n.kids[p[0]];
    PrefixGrows(pre, k);
    assert Lookup(n, p) == Lookup(kid, p[1..]);
    assert pre + p == (pre + [k]) + p[1..];
    if |p| > 1 {
      assert kid.Section?;
      KeyOfLeaf(kid, pre + [k], p[1..]);
    } else {
      assert p[1..] == [];
      assert (pre + [k]) + [] == pre + [k];
    }
    assert Join(pre + p) in KeysAt(kid, CurrentKey(Prefix(pre), k));
  }

  lemma {:induction false} LeafOfKey(n: Node, pre: Path, s: string) returns (p: Path)
    requires n.Section? && Named(n) && s in KeysOf(n, Prefix(pre))
    requires pre != [] ==> Join(pre) != ""
    ensures p != [] && LeafAt(n, p).Some? && s == Join(pre + p)
    decreases n
  {
    var k :| k in n.kids && s in KeysAt(n.kids[k], CurrentKey(Prefix(pre), k));
    PrefixGrows(pre, k);
    if n.kids[k].Section? {
      var rest := LeafOfKey(n.kids[k], pre + [k], s);
      p := [k] + rest;
      assert (pre + [k]) + rest == pre + p;
      LookupKid(n, k, rest);
    } else {
      p := [k];
      LookupKid(n, k, []);
    }
  }

  lemma LookupKid(n: Node, k: string, rest: Path)
    requires n.Section? && k in n.kids
    ensures Lookup(n, [k] + rest) == Lookup(n.kids[k], rest) && [k] + [] == [k]
  {
  }

  /** The parts on the way to a leaf are free of dots, so joining and splitting them is exact. */
  lemma {:induction false} LeafPathDotFree(n: Node, p: Path)
    requires Named(n) && LeafAt(n, p).Some?
    ensures forall i :: 0 <= i < |p| ==> DotFree(p[i])
    ensures p != [] ==> Split(Join(p)) == p
    decreases n
  {
    if p != [] {
      LeafPathDotFree(n.kids[p[0]], p[1..]);
      assert forall i :: 0 < i < |p| ==> p[i] == p[1..][i - 1];
      SplitJoin(p);
    }
  }

  /** A string is among the keys exactly when the path it splits into ends in a leaf. */
  lemma KeyIffLeaf(n: Node, s: string)
    requires n.Section? && Named(n)
    ensures s in KeysOf(n, "") <==> LeafAt(n, Split(s)).Some?
  {
    if s in KeysOf(n, "") {
      var p := LeafOfKey(n, [], s);
      assert [] + p == p;
      LeafPathDotFree(n, p);
    }
    if LeafAt(n, Split(s)).Some? {
      KeyOfLeaf(n, [], Split(s));
      assert [] + Split(s) == Split(s);
      JoinSplit(s);
    }
  }
}
