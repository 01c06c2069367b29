/** Configuration trees: nested dictionaries with scalar leaves, read and written by path. */
module ConfigTree {
  import opened Wrappers

  datatype Scalar = Null | Flag(b: bool) | Number(n: int) | Float(r: real) | Text(s: string) | Texts(items: seq<string>)

  datatype Node = Leaf(v: Scalar) | Section(kids: map<string, Node>)

  type Path = seq<string>

  const EMPTY: Node := Section(map[])

  /** What stands at `p`, if the way there leads through sections only. */
  function Lookup(n: Node, p: Path): Option<Node> {
    if p == [] then Some(n)
    else if n.Section? && p[0] in n.kids then Lookup(n.kids[p[0]], p[1..])
    else None
  }

  function LeafAt(n: Node, p: Path): Option<Scalar> {
    match Lookup(n, p)
    case Some(Leaf(v)) => Some(v)
    case _ => None
  }

  /** Equal as leaf maps; empty sections do not count. */
  ghost predicate SameLeaves(a: Node, b: Node) {
    forall p: Path :: LeafAt(a, p) == LeafAt(b, p)
  }

  /** `setdefault(k, {})`. */
  function Kid(n: Node, k: string): Node
    requires n.Section?
  {
    if k in n.kids then n.kids[k] else EMPTY
  }

  /** Write `x` at `p`, creating missing sections on the way. A leaf on the way raises. */
  function Set(n: Node, p: Path, x: Node): Option<Node>
    requires p != []
    decreases p
  {
    if n.Leaf? then None
    else if |p| == 1 then Some(Section(n.kids[p[0] := x]))
    else
      match Set(Kid(n, p[0]), p[1..], x)
      case None => None
      case Some(m) => Some(Section(n.kids[p[0] := m]))
  }

  /** Delete what stands at `p`; a way that is missing or blocked is ignored. */
  function Remove(n: Node, p: Path): Node
    requires p != []
  {
    if n.Leaf? then n
    else if |p| == 1 then Section(n.kids - {p[0]})
    else if p[0] in n.kids then Section(n.kids[p[0] := Remove(n.kids[p[0]], p[1..])])
    else n
  }

  // ----- Reading after writing.

  lemma {:induction false} LookupAppend(n: Node, p: Path, q: Path)
    ensures Lookup(n, p + q) == match Lookup(n, p) case Some(m) => Lookup(m, q) case None => None
  {
    if p == [] {
      assert p + q == q;
    } else if n.Section? && p[0] in n.kids {
      LookupAppend(n.kids[p[0]], p[1..], q);
      assert (p + q)[1..] == p[1..] + q;
    }
  }

  /** Writing succeeds exactly when no leaf stands on the way. */
  lemma {:induction false} SetSucceeds(n: Node, p: Path, x: Node)
    requires p != []
    ensures Set(n, p, x).Some? <==> forall i :: 0 <= i < |p| ==> LeafAt(n, p[..i]).None?
    decreases p
  {
    if n.Leaf? {
      assert LeafAt(n, p[..0]) == Some(n.v);
    } else if |p| > 1 {
      var kid := Kid(n, p[0]);
      SetSucceeds(kid, p[1..], x);
      forall i | 0 <= i < |p| - 1 ensures LeafAt(kid, p[1..][..i]) == LeafAt(n, p[..i + 1]) {
        assert p[..i + 1][1..] == p[1..][..i];
      }
      if Set(n, p, x).Some? {
        forall i | 0 <= i < |p| ensures LeafAt(n, p[..i]).None? {
          if i > 0 {
            assert LeafAt(kid, p[1..][..i - 1]).None?;
          }
        }
      } else {
        var i :| 0 <= i < |p| - 1 && LeafAt(kid, p[1..][..i]).Some?;
        assert LeafAt(n, p[..i + 1]).Some?;
      }
    }
  }

  /** After writing: below the path stands what was written, on the way there are sections,
      everywhere else nothing changed. */
  lemma {:induction false} LookupSet(n: Node, p: Path, x: Node, q: Path)
    requires p != [] && Set(n, p, x).Some?
    ensures var m := Set(n, p, x).value;
      if p <= q then Lookup(m, q) == Lookup(x, q[|p|..])
      else if q <= p then Lookup(m, q).Some? && Lookup(m, q).value.Section?
      else Lookup(m, q) == Lookup(n, q)
    decreases p
  {
    if q != [] && q[0] == p[0] && |p| > 1 {
      LookupSet(Kid(n, p[0]), p[1..], x, q[1..]);
      PrefixTail(p, q);
      PrefixTail(q, p);
      if p <= q {
        assert q[1..][|p| - 1..] == q[|p|..];
      }
    }
  }

  lemma PrefixTail(p: Path, q: Path)
    requires p != [] && q != [] && p[0] == q[0]
    ensures p <= q <==> p[1..] <= q[1..]
  {
  }

  lemma LeafAtSet(n: Node, p: Path, x: Node, q: Path)
    requires p != [] && Set(n, p, x).Some?
    ensures LeafAt(Set(n, p, x).value, q) == if p <= q then LeafAt(x, q[|p|..]) else LeafAt(n, q)
  {
    LookupSet(n, p, x, q);
    if q <= p && !(p <= q) {
      SetSucceeds(n, p, x);
      assert q == p[..|q|];
    }
  }

  lemma {:induction false} LeafAtRemove(n: Node, p: Path, q: Path)
    requires p != []
    ensures LeafAt(Remove(n, p), q) == if p <= q then None else LeafAt(n, q)
  {
    if q != [] && q[0] == p[0] {
      PrefixTail(p, q);
      if |p| > 1 && n.Section? && p[0] in n.kids {
        LeafAtRemove(n.kids[p[0]], p[1..], q[1..]);
      }
    }
  }

  /** Nothing stands below a leaf. */
  lemma NothingBelowLeaf(n: Node, p: Path, q: Path)
    requires LeafAt(n, p).Some? && p <= q && p != q
    ensures Lookup(n, q) == None
  {
    LookupAppend(n, p, q[|p|..]);
    assert q == p + q[|p|..];
  }
}
