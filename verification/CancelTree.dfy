/** `cancel_inner` run by one thread, on the tokens themselves.

    What one call reaches is stated exactly: the tokens at the end of a chain of live
    children, none of which was cancelled before.
  */
module CancelTree {
  class Inner {
    var cancelled: bool
    /** Weak references: some of these tokens may be gone. */
    var children: seq<Inner>

    constructor ()
      ensures !cancelled && children == []
    {
      cancelled, children := false, [];
    }
  }

  /** The tokens at most `n` live, not yet cancelled children away from `from`. */
  ghost function Within(kids: map<Inner, seq<Inner>>, live: set<Inner>, white: set<Inner>, from: Inner,
                        n: nat): set<Inner>
  {
    if n == 0 then {from} * white
    else
      var nearer := Within(kids, live, white, from, n - 1);
      nearer + set c | c in white * live && exists p :: p in nearer && p in kids && c in kids[p]
  }

  ghost predicate Reaches(kids: map<Inner, seq<Inner>>, live: set<Inner>, white: set<Inner>, from: Inner, to: Inner) {
    exists n: nat :: to in Within(kids, live, white, from, n)
  }

  ghost function White(all: set<Inner>): set<Inner>
    reads all
  {
    set t | t in all && !t.cancelled
  }

  ghost predicate Closed(all: set<Inner>, kids: map<Inner, seq<Inner>>) {
    kids.Keys == all && forall p, c :: p in all && c in kids[p] ==> c in all
  }

  /** `kids` are the children of every token that is not cancelled. */
  ghost predicate Records(all: set<Inner>, kids: map<Inner, seq<Inner>>)
    reads all
  {
    Closed(all, kids) && forall t :: t in all && !t.cancelled ==> t.children == kids[t]
  }

  lemma {:induction false} WithinGrows(kids: map<Inner, seq<Inner>>, live: set<Inner>, small: set<Inner>,
                                       white: set<Inner>,
                                       from: Inner, child: Inner, n: nat)
    requires small <= white && from in white && from in kids && child in kids[from] && child in live
    ensures Within(kids, live, small, child, n) <= Within(kids, live, white, from, n + 1)
  {
    if n == 0 {
      assert from in Within(kids, live, white, from, 0);
    } else {
      WithinGrows(kids, live, small, white, from, child, n - 1);
    }
  }

  /** What a live child reaches among fewer tokens, its parent reaches. */
  lemma ChildReaches(kids: map<Inner, seq<Inner>>, live: set<Inner>, small: set<Inner>, white: set<Inner>,
                     from: Inner, child: Inner, to: Inner)
    requires small <= white && from in white && from in kids && child in kids[from] && child in live
    requires Reaches(kids, live, small, child, to)
    ensures Reaches(kids, live, white, from, to)
  {
    var n: nat :| to in Within(kids, live, small, child, n);
    WithinGrows(kids, live, small, white, from, child, n);
  }

  /** A set that holds `from` and the live children of its own tokens holds what `from` reaches. */
  lemma {:induction false} ClosedHoldsReached(kids: map<Inner, seq<Inner>>, live: set<Inner>, white: set<Inner>,
                                              from: Inner, reached: set<Inner>, n: nat)
    requires from in white ==> from in reached
    requires forall p, c :: p in reached && p in kids && c in kids[p] && c in live && c in white ==> c in reached
    ensures Within(kids, live, white, from, n) <= reached
  {
    if n > 0 {
      ClosedHoldsReached(kids, live, white, from, reached, n - 1);
    }
  }

  method CancelInner(inner: Inner, live: set<Inner>, ghost all: set<Inner>, ghost kids: map<Inner, seq<Inner>>)
    requires inner in all && Records(all, kids)
    modifies all
    decreases White(all)
    ensures Records(all, kids) && inner.cancelled
    ensures White(all) <= old(White(all))
    ensures forall t :: t in all && old(t.cancelled) ==> t.cancelled && t.children == old(t.children)
    ensures forall t :: t in old(White(all)) - White(all) ==> Reaches(kids, live, old(White(all)), inner, t)
    ensures forall p, c :: p in old(White(all)) - White(all) && c in kids[p] && c in live ==> c.cancelled
  {
    ghost var white := White(all);
    if inner.cancelled {
      return;
    }
    inner.cancelled := true;
    var children := inner.children;
    inner.children := [];
    assert inner in Within(kids, live, white, inner, 0);
    assert White(all) < white;
    for i := 0 to |children|
      invariant Records(all, kids) && inner.cancelled && White(all) < white
      invariant children == kids[inner]
      invariant forall t :: t in all && old(t.cancelled) ==> t.cancelled && t.children == old(t.children)
      invariant forall t :: t in white - White(all) ==> Reaches(kids, live, white, inner, t)
      invariant forall p, c :: p in white - White(all) - {inner} && c in kids[p] && c in live ==> c.cancelled
      invariant forall j :: 0 <= j < i && children[j] in live ==> children[j].cancelled
    {
      var child := children[i];
      if child in live {
        ghost var before := White(all);
        CancelInner(child, live, all, kids);
        forall t | t in white - White(all) ensures Reaches(kids, live, white, inner, t) {
          if t in before {
            ChildReaches(kids, live, before, white, inner, child, t);
          }
        }
      }
    }
  }

  /** Cancelling a token cancels exactly what it reaches through live tokens that were not
      cancelled before; a second call changes nothing. */
  method Cancel(token: Inner, live: set<Inner>, ghost all: set<Inner>)
    requires token in all && forall p, c :: p in all && c in p.children ==> c in all
    modifies all
    ensures forall t :: t in all ==>
      (t.cancelled <==> old(t.cancelled)
                        || Reaches(old(map p | p in all :: p.children), live, old(White(all)), token, t))
    ensures old(token.cancelled) ==> forall t :: t in all ==>
      t.cancelled == old(t.cancelled) && t.children == old(t.children)
  {
    ghost var kids := map p | p in all :: p.children;
    ghost var white := White(all);
    CancelInner(token, live, all, kids);
    ghost var reached := white - White(all);
    forall t | t in all && Reaches(kids, live, white, token, t) ensures t.cancelled {
      var n: nat :| t in Within(kids, live, white, token, n);
      ClosedHoldsReached(kids, live, white, token, reached, n);
    }
    if old(token.cancelled) {
      forall n: nat ensures Within(kids, live, white, token, n) == {} {
        ClosedHoldsReached(kids, live, white, token, {}, n);
      }
    }
  }
}
