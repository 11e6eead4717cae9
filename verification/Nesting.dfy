/** Cutting types nested past a bound with a worklist instead of recursion.

    A position in the tree stands for the mutable reference the worklist holds; replacing
    the node at a position replaces it in place.
  */
module Nesting {
  import opened Options

  /** Types are kept to this many levels, counting from 1 at the field. */
  const MAX_TYPE_DEPTH: nat := 32

  datatype LogicalType = Scalar(kind: nat) | Unknown | Array(inner: LogicalType) | Struct(fields: seq<Field>)

  datatype Field = Field(name: string, logical: LogicalType, rawType: string)

  type Position = seq<nat>

  predicate Nests(t: LogicalType) {
    t.Array? || t.Struct?
  }

  function Kids(t: LogicalType): (kids: seq<LogicalType>)
    ensures forall k :: k in kids ==> k < t
  {
    match t
    case Array(inner) => [inner]
    case Struct(fields) => seq(|fields|, i requires 0 <= i < |fields| => fields[i].logical)
    case _ => []
  }

  function WithKid(t: LogicalType, i: nat, kid: LogicalType): (r: LogicalType)
    requires i < |Kids(t)|
    ensures Kids(r) == Kids(t)[i := kid] && Nests(r)
  {
    match t
    case Array(_) => Array(kid)
    case Struct(fields) => Struct(fields[i := fields[i].(logical := kid)])
  }

  function At(t: LogicalType, p: Position): Option<LogicalType>
    decreases |p|
  {
    if p == [] then Some(t)
    else if p[0] < |Kids(t)| then At(Kids(t)[p[0]], p[1..])
    else None
  }

  function Put(t: LogicalType, p: Position, v: LogicalType): LogicalType
    requires At(t, p).Some?
    decreases |p|
  {
    if p == [] then v else WithKid(t, p[0], Put(Kids(t)[p[0]], p[1..], v))
  }

  // ---------- the recursive definition ----------

  /** Everything nested at the bound or below replaced by Unknown, everything above kept. */
  function Cut(t: LogicalType, depth: nat): LogicalType
    decreases t
  {
    if depth >= MAX_TYPE_DEPTH && Nests(t) then Unknown
    else
      match t
      case Array(inner) => Array(Cut(inner, depth + 1))
      case Struct(fields) =>
        Struct(seq(|fields|, i requires 0 <= i < |fields| => fields[i].(logical := Cut(fields[i].logical, depth + 1))))
      case _ => t
  }

  /** Nothing nests at the bound or below. */
  ghost predicate WithinBound(t: LogicalType, depth: nat) {
    forall p: Position :: At(t, p).Some? && depth + |p| >= MAX_TYPE_DEPTH ==> !Nests(At(t, p).value)
  }

  lemma KidWithinBound(t: LogicalType, depth: nat, i: nat)
    requires WithinBound(t, depth) && i < |Kids(t)|
    ensures WithinBound(Kids(t)[i], depth + 1)
  {
    forall p: Position | At(Kids(t)[i], p).Some? && depth + 1 + |p| >= MAX_TYPE_DEPTH
      ensures !Nests(At(Kids(t)[i], p).value) {
      assert ([i] + p)[1..] == p;
      assert At(t, [i] + p) == At(Kids(t)[i], p);
    }
  }

  /** The cut only touches what nests too deep. */
  lemma {:induction false} WithinBoundIsKept(t: LogicalType, depth: nat)
    requires WithinBound(t, depth)
    ensures Cut(t, depth) == t
    decreases t
  {
    assert At(t, []) == Some(t);
    match t
    case Array(inner) =>
      KidWithinBound(t, depth, 0);
      WithinBoundIsKept(inner, depth + 1);
    case Struct(fields) =>
      forall i | 0 <= i < |fields| ensures Cut(fields[i].logical, depth + 1) == fields[i].logical {
        KidWithinBound(t, depth, i);
        WithinBoundIsKept(fields[i].logical, depth + 1);
      }
      if |fields| > 0 || depth < MAX_TYPE_DEPTH {
        assert Struct(fields) == Cut(t, depth);
      }
    case _ =>
  }

  lemma CutKids(t: LogicalType, depth: nat)
    requires depth < MAX_TYPE_DEPTH || !Nests(t)
    ensures |Kids(Cut(t, depth))| == |Kids(t)|
    ensures forall i :: 0 <= i < |Kids(t)| ==> Kids(Cut(t, depth))[i] == Cut(Kids(t)[i], depth + 1)
    ensures Nests(Cut(t, depth)) <==> Nests(t)
  {
  }

  /** Above the bound the shape is the original's; at the bound nothing nests. */
  lemma {:induction false} CutAt(t: LogicalType, depth: nat, p: Position)
    ensures depth + |p| <= MAX_TYPE_DEPTH && At(t, p).Some? ==>
      At(Cut(t, depth), p) == Some(Cut(At(t, p).value, depth + |p|))
    ensures At(Cut(t, depth), p).Some? ==> At(t, p).Some? && (depth <= MAX_TYPE_DEPTH ==> depth + |p| <= MAX_TYPE_DEPTH)
    decreases |p|
  {
    if p != [] {
      if depth < MAX_TYPE_DEPTH || !Nests(t) {
        CutKids(t, depth);
        if p[0] < |Kids(t)| { CutAt(Kids(t)[p[0]], depth + 1, p[1..]); }
      }
    }
  }

  /** The result never nests past the bound. */
  lemma CutIsWithinBound(t: LogicalType, depth: nat)
    requires depth <= MAX_TYPE_DEPTH
    ensures WithinBound(Cut(t, depth), depth)
  {
    forall p: Position | At(Cut(t, depth), p).Some? && depth + |p| >= MAX_TYPE_DEPTH
      ensures !Nests(At(Cut(t, depth), p).value)
    {
      CutAt(t, depth, p);
    }
  }

  // ---------- counting nodes ----------

  function Size(t: LogicalType): (n: nat)
    ensures n > 0
    decreases t, |Kids(t)| + 1
  {
    1 + KidsSize(t, |Kids(t)|)
  }

  /** The nodes of the first `n` children. */
  function KidsSize(t: LogicalType, n: nat): nat
    requires n <= |Kids(t)|
    decreases t, n
  {
    if n == 0 then 0
    else
      assert Kids(t)[n - 1] in Kids(t);
      KidsSize(t, n - 1) + Size(Kids(t)[n - 1])
  }

  function TotalSize(types: seq<LogicalType>): nat {
    if types == [] then 0 else TotalSize(types[..|types| - 1]) + Size(types[|types| - 1])
  }

  lemma {:induction false} TotalSizeConcat(a: seq<LogicalType>, b: seq<LogicalType>)
    ensures TotalSize(a + b) == TotalSize(a) + TotalSize(b)
    decreases |b|
  {
    if b == [] {
      assert a + b == a;
    } else {
      assert (a + b)[..|a + b| - 1] == a + b[..|b| - 1];
      TotalSizeConcat(a, b[..|b| - 1]);
    }
  }

  lemma {:induction false} KidsSizeIsTotal(t: LogicalType, n: nat)
    requires n <= |Kids(t)|
    ensures KidsSize(t, n) == TotalSize(Kids(t)[..n])
    decreases n
  {
    if n > 0 {
      KidsSizeIsTotal(t, n - 1);
      assert Kids(t)[..n][..n - 1] == Kids(t)[..n - 1];
    }
  }

  lemma SizeIsTotal(t: LogicalType)
    ensures Size(t) == 1 + TotalSize(Kids(t))
  {
    KidsSizeIsTotal(t, |Kids(t)|);
    assert Kids(t)[..|Kids(t)|] == Kids(t);
  }

  lemma {:induction false} TotalSizeUpdate(types: seq<LogicalType>, i: nat, v: LogicalType)
    requires i < |types|
    ensures TotalSize(types[i := v]) + Size(types[i]) == TotalSize(types) + Size(v)
    decreases |types|
  {
    var n := |types| - 1;
    if i == n {
      assert types[i := v][..n] == types[..n];
    } else {
      assert types[i := v][..n] == types[..n][i := v];
      TotalSizeUpdate(types[..n], i, v);
    }
  }

  // ---------- replacing in place ----------

  lemma {:induction false} SizePut(t: LogicalType, p: Position, v: LogicalType)
    requires At(t, p).Some?
    ensures Size(Put(t, p, v)) + Size(At(t, p).value) == Size(t) + Size(v)
    decreases |p|
  {
    if p != [] {
      var kid := Kids(t)[p[0]];
      SizePut(kid, p[1..], v);
      SizeIsTotal(t);
      SizeIsTotal(Put(t, p, v));
      TotalSizeUpdate(Kids(t), p[0], Put(kid, p[1..], v));
    }
  }

  /** Positions apart from the replaced one keep their node; those above it keep nesting. */
  lemma {:induction false} AtPut(t: LogicalType, p: Position, v: LogicalType, q: Position)
    requires At(t, p).Some?
    ensures p <= q ==> At(Put(t, p, v), q) == At(v, q[|p|..])
    ensures !(p <= q) && !(q <= p) ==> At(Put(t, p, v), q) == At(t, q)
    ensures q < p ==> At(t, q).Some? && Nests(At(t, q).value)
    decreases |p|
  {
    if p != [] && q != [] && p[0] == q[0] {
      AtPut(Kids(t)[p[0]], p[1..], v, q[1..]);
      assert p <= q <==> p[1..] <= q[1..];
      assert q <= p <==> q[1..] <= p[1..];
      assert p <= q ==> q[1..][|p[1..]|..] == q[|p|..];
    }
  }

  /** Replacing at the bound or below changes nothing of the result. */
  lemma {:induction false} CutPut(t: LogicalType, depth: nat, p: Position)
    requires At(t, p).Some? && Nests(At(t, p).value) && depth + |p| >= MAX_TYPE_DEPTH
    ensures Cut(Put(t, p, Unknown), depth) == Cut(t, depth)
    decreases |p|
  {
    if p != [] && depth < MAX_TYPE_DEPTH {
      CutPut(Kids(t)[p[0]], depth + 1, p[1..]);
    }
  }

  lemma {:induction false} AtChild(t: LogicalType, p: Position, i: nat)
    requires At(t, p).Some?
    ensures At(t, p + [i]) == if i < |Kids(At(t, p).value)| then Some(Kids(At(t, p).value)[i]) else None
    decreases |p|
  {
    if p == [] {
      assert (p + [i])[1..] == [];
    } else {
      assert (p + [i])[1..] == p[1..] + [i];
      AtChild(Kids(t)[p[0]], p[1..], i);
    }
  }

  lemma {:induction false} AtPrefix(t: LogicalType, p: Position, q: Position)
    requires At(t, q).Some? && p <= q
    ensures At(t, p).Some?
    ensures p != q ==> q[|p|] < |Kids(At(t, p).value)|
    decreases |p|
  {
    if p != [] {
      AtPrefix(Kids(t)[p[0]], p[1..], q[1..]);
      assert p[1..] == q[1..] ==> p == q;
    }
  }

  // ---------- the worklist ----------

  /** Valid positions below the root, none above another. */
  ghost predicate Apart(t: LogicalType, pending: seq<Position>) {
    && (forall i :: 0 <= i < |pending| ==> pending[i] != [] && At(t, pending[i]).Some?)
    && (forall i, j :: 0 <= i < |pending| && 0 <= j < |pending| && i != j ==> !(pending[i] <= pending[j]))
  }

  /** Every node that has to go is at or under a pending position. */
  ghost predicate Covers(t: LogicalType, pending: seq<Position>) {
    forall q: Position :: TooDeep(t, q) ==> exists i :: 0 <= i < |pending| && pending[i] <= q
  }

  predicate TooDeep(t: LogicalType, q: Position) {
    At(t, q).Some? && |q| >= MAX_TYPE_DEPTH && Nests(At(t, q).value)
  }

  function PendingSize(t: LogicalType, pending: seq<Position>): nat
    requires forall i :: 0 <= i < |pending| ==> At(t, pending[i]).Some?
  {
    if pending == [] then 0
    else PendingSize(t, pending[..|pending| - 1]) + Size(At(t, pending[|pending| - 1]).value)
  }

  lemma {:induction false} PendingSizePut(t: LogicalType, pending: seq<Position>, p: Position, v: LogicalType)
    requires At(t, p).Some?
    requires forall i :: 0 <= i < |pending| ==> At(t, pending[i]).Some? && !(p <= pending[i]) && !(pending[i] <= p)
    ensures forall i :: 0 <= i < |pending| ==> At(Put(t, p, v), pending[i]).Some?
    ensures PendingSize(Put(t, p, v), pending) == PendingSize(t, pending)
    decreases |pending|
  {
    forall i | 0 <= i < |pending| ensures At(Put(t, p, v), pending[i]) == At(t, pending[i]) {
      AtPut(t, p, v, pending[i]);
    }
    if pending != [] {
      PendingSizePut(t, pending[..|pending| - 1], p, v);
    }
  }

  function Children(p: Position, n: nat): (r: seq<Position>)
    ensures |r| == n && forall i :: 0 <= i < n ==> r[i] == p + [i]
  {
    seq(n, i requires 0 <= i < n => p + [i])
  }

  ghost predicate AllAt(t: LogicalType, pending: seq<Position>) {
    forall i :: 0 <= i < |pending| ==> At(t, pending[i]).Some?
  }

  lemma ChildrenAt(t: LogicalType, p: Position, n: nat)
    requires At(t, p).Some? && n <= |Kids(At(t, p).value)|
    ensures AllAt(t, Children(p, n))
    ensures forall i :: 0 <= i < n ==> At(t, Children(p, n)[i]).value == Kids(At(t, p).value)[i]
  {
    forall i | 0 <= i < n
      ensures At(t, Children(p, n)[i]) == Some(Kids(At(t, p).value)[i])
    {
      AtChild(t, p, i);
    }
  }

  lemma {:induction false} PendingSizeConcat(t: LogicalType, a: seq<Position>, b: seq<Position>)
    requires AllAt(t, a) && AllAt(t, b)
    ensures AllAt(t, a + b) && PendingSize(t, a + b) == PendingSize(t, a) + PendingSize(t, b)
    decreases |b|
  {
    if b == [] {
      assert a + b == a;
    } else {
      assert (a + b)[..|a + b| - 1] == a + b[..|b| - 1];
      PendingSizeConcat(t, a, b[..|b| - 1]);
    }
  }

  lemma {:induction false} PendingSizeChildren(t: LogicalType, p: Position, n: nat)
    requires At(t, p).Some? && n <= |Kids(At(t, p).value)|
    ensures AllAt(t, Children(p, n)) && PendingSize(t, Children(p, n)) == TotalSize(Kids(At(t, p).value)[..n])
    decreases n
  {
    ChildrenAt(t, p, n);
    if n > 0 {
      var kids := Kids(At(t, p).value);
      PendingSizeChildren(t, p, n - 1);
      assert Children(p, n)[..n - 1] == Children(p, n - 1);
      assert kids[..n][..n - 1] == kids[..n - 1];
    }
  }

  lemma ApartRest(t: LogicalType, pending: seq<Position>, p: Position)
    requires Apart(t, pending + [p])
    ensures At(t, p).Some? && p != []
    ensures forall i :: 0 <= i < |pending| ==>
      pending[i] != [] && At(t, pending[i]).Some? && !(p <= pending[i]) && !(pending[i] <= p)
    ensures forall i, j :: 0 <= i < |pending| && 0 <= j < |pending| && i != j ==> !(pending[i] <= pending[j])
  {
    var all := pending + [p];
    assert all[|pending|] == p;
    forall i | 0 <= i < |pending|
      ensures pending[i] != [] && At(t, pending[i]).Some? && !(p <= pending[i]) && !(pending[i] <= p)
    {
      assert all[i] == pending[i];
    }
    forall i, j | 0 <= i < |pending| && 0 <= j < |pending| && i != j ensures !(pending[i] <= pending[j]) {
      assert all[i] == pending[i] && all[j] == pending[j];
    }
  }

  /** Taking a node off the worklist and cutting it. */
  lemma CutStep(t: LogicalType, pending: seq<Position>, p: Position)
    requires Apart(t, pending + [p]) && Covers(t, pending + [p])
    requires At(t, p).Some? && Nests(At(t, p).value) && |p| >= MAX_TYPE_DEPTH
    ensures Apart(Put(t, p, Unknown), pending) && Covers(Put(t, p, Unknown), pending)
    ensures Cut(Put(t, p, Unknown), 0) == Cut(t, 0)
    ensures forall i :: 0 <= i < |pending| ==> At(t, pending[i]).Some?
    ensures PendingSize(Put(t, p, Unknown), pending) == PendingSize(t, pending)
  {
    var t', all := Put(t, p, Unknown), pending + [p];
    ApartRest(t, pending, p);
    PendingSizePut(t, pending, p, Unknown);
    CutPut(t, 0, p);
    forall q: Position | TooDeep(t', q) ensures exists i :: 0 <= i < |pending| && pending[i] <= q {
      AtPut(t, p, Unknown, q);
      assert TooDeep(t, q) && !(p <= q);
      var i :| 0 <= i < |all| && all[i] <= q;
      assert i < |pending| && pending[i] <= q;
    }
  }

  lemma ChildrenApart(t: LogicalType, pending: seq<Position>, p: Position, n: nat)
    requires Apart(t, pending + [p]) && At(t, p).Some? && n <= |Kids(At(t, p).value)|
    ensures Apart(t, pending + Children(p, n))
  {
    var next := pending + Children(p, n);
    ApartRest(t, pending, p);
    ChildrenAt(t, p, n);
    forall i, j | 0 <= i < |next| && 0 <= j < |next| && i != j && next[i] <= next[j] ensures false {
      NotAboveEachOther(pending, p, n, i, j);
    }
  }

  lemma NotAboveEachOther(pending: seq<Position>, p: Position, n: nat, i: nat, j: nat)
    requires forall k :: 0 <= k < |pending| ==> !(p <= pending[k]) && !(pending[k] <= p)
    requires forall k, l :: 0 <= k < |pending| && 0 <= l < |pending| && k != l ==> !(pending[k] <= pending[l])
    requires i < |pending| + n && j < |pending| + n && i != j
    ensures !((pending + Children(p, n))[i] <= (pending + Children(p, n))[j])
  {
    var next := pending + Children(p, n);
    if next[i] <= next[j] {
      if i >= |pending| {
        ChildPrefix(p, i - |pending|, next[j]);
      } else if j >= |pending| {
        PrefixOfChild(p, j - |pending|, pending[i]);
      }
    }
  }

  lemma ChildPrefix(p: Position, i: nat, q: Position)
    requires p + [i] <= q
    ensures p <= q && |q| > |p| && q[|p|] == i
  {
    assert (p + [i])[|p|] == i;
    assert (p + [i])[..|p|] == p;
  }

  lemma PrefixOfChild(p: Position, i: nat, q: Position)
    requires q <= p + [i]
    ensures q <= p || p <= q
  {
    if |q| <= |p| {
      assert q == (p + [i])[..|q|] == p[..|q|];
    } else {
      assert q == p + [i];
    }
  }

  lemma ChildrenCover(t: LogicalType, pending: seq<Position>, p: Position)
    requires Covers(t, pending + [p])
    requires At(t, p).Some? && (Nests(At(t, p).value) ==> |p| < MAX_TYPE_DEPTH)
    ensures Covers(t, pending + Children(p, |Kids(At(t, p).value)|))
  {
    var all, next := pending + [p], pending + Children(p, |Kids(At(t, p).value)|);
    forall q: Position | TooDeep(t, q) ensures exists i :: 0 <= i < |next| && next[i] <= q {
      var i :| 0 <= i < |all| && all[i] <= q;
      if i < |pending| {
        assert next[i] <= q;
      } else {
        var k := ChildAbove(t, p, q);
        assert next[|pending| + k] == Children(p, |Kids(At(t, p).value)|)[k];
      }
    }
  }

  /** What is too deep below a position is too deep below one of its children. */
  lemma ChildAbove(t: LogicalType, p: Position, q: Position) returns (k: nat)
    requires At(t, p).Some? && (Nests(At(t, p).value) ==> |p| < MAX_TYPE_DEPTH)
    requires TooDeep(t, q) && p <= q
    ensures k < |Kids(At(t, p).value)| && Children(p, |Kids(At(t, p).value)|)[k] <= q
  {
    assert p != q;
    AtPrefix(t, p, q);
    k := q[|p|];
    assert q[..|p| + 1] == p + [k];
  }

  /** Taking a node off the worklist and putting its children there. */
  lemma DescendStep(t: LogicalType, pending: seq<Position>, p: Position)
    requires Apart(t, pending + [p]) && Covers(t, pending + [p])
    requires At(t, p).Some? && (Nests(At(t, p).value) ==> |p| < MAX_TYPE_DEPTH)
    ensures var next := pending + Children(p, |Kids(At(t, p).value)|);
      Apart(t, next) && Covers(t, next) &&
      AllAt(t, pending) &&
      PendingSize(t, next) + 1 == PendingSize(t, pending) + Size(At(t, p).value)
  {
    var n := |Kids(At(t, p).value)|;
    ApartRest(t, pending, p);
    ChildrenApart(t, pending, p, n);
    ChildrenCover(t, pending, p);
    PendingSizeChildren(t, p, n);
    PendingSizeConcat(t, pending, Children(p, n));
    SizeIsTotal(At(t, p).value);
    assert Kids(At(t, p).value)[..n] == Kids(At(t, p).value);
  }

  /** With nothing pending, nothing is too deep. */
  lemma NothingPending(t: LogicalType)
    requires Covers(t, [])
    ensures Cut(t, 0) == t
  {
    forall p: Position | At(t, p).Some? && 0 + |p| >= MAX_TYPE_DEPTH ensures !Nests(At(t, p).value) {
      assert !TooDeep(t, p);
    }
    WithinBoundIsKept(t, 0);
  }

  /** Releases each node of the types exactly once, without recursion. */
  method TakeApart(types: seq<LogicalType>) returns (dropped: nat)
    ensures dropped == TotalSize(types)
  {
    var left := types;
    dropped := 0;
    while left != []
      invariant dropped + TotalSize(left) == TotalSize(types)
      decreases TotalSize(left)
    {
      var logical := left[|left| - 1];
      left := left[..|left| - 1];
      SizeIsTotal(logical);
      TotalSizeConcat(left, Kids(logical));
      left := left + Kids(logical);
      dropped := dropped + 1;
    }
  }

  /** Cuts every type of `fields` nested past the bound. What is cut off is dismantled once,
      and nothing else: each cut puts one node where it removed a subtree. */
  method Bound(fields: seq<Field>) returns (bounded: seq<Field>, cuts: nat, dropped: nat)
    ensures |bounded| == |fields|
    ensures forall i :: 0 <= i < |fields| ==> bounded[i] == fields[i].(logical := Cut(fields[i].logical, 1))
    ensures Size(Struct(bounded)) + dropped == Size(Struct(fields)) + cuts
  {
    var tree := Struct(fields);
    var cut: seq<LogicalType> := [];
    var pending := Children([], |fields|);
    InitialWorklist(tree);
    while pending != []
      invariant Apart(tree, pending) && Covers(tree, pending)
      invariant Cut(tree, 0) == Cut(Struct(fields), 0)
      invariant Size(tree) + TotalSize(cut) == Size(Struct(fields)) + |cut|
      decreases PendingSize(tree, pending)
    {
      var p, rest := pending[|pending| - 1], pending[..|pending| - 1];
      assert pending == rest + [p];
      ApartRest(tree, rest, p);
      var logical := At(tree, p).value;
      if |p| >= MAX_TYPE_DEPTH && Nests(logical) {
        CutStep(tree, rest, p);
        SizePut(tree, p, Unknown);
        SizeIsTotal(Unknown);
        assert (cut + [logical])[..|cut|] == cut;
        cut := cut + [logical];
        tree := Put(tree, p, Unknown);
        pending := rest;
      } else {
        DescendStep(tree, rest, p);
        pending := rest + Children(p, |Kids(logical)|);
      }
    }
    NothingPending(tree);
    assert tree == Cut(Struct(fields), 0);
    bounded := tree.fields;
    cuts := |cut|;
    dropped := TakeApart(cut);
  }

  lemma InitialWorklist(t: LogicalType)
    ensures Apart(t, Children([], |Kids(t)|)) && Covers(t, Children([], |Kids(t)|))
  {
    var pending := Children([], |Kids(t)|);
    forall i | 0 <= i < |pending| ensures pending[i] != [] && At(t, pending[i]).Some? {
      AtChild(t, [], i);
    }
    forall q: Position | TooDeep(t, q) ensures exists i :: 0 <= i < |pending| && pending[i] <= q {
      AtPrefix(t, [], q);
      assert pending[q[0]] <= q;
    }
  }
}
