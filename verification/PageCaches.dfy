/** The pages read back from disk and kept, the least recently used first.

    A page's size is the memory it reports once decoded, its place in the queue included.
  */
module PageCaches {
  import opened Options
  import opened BufferIndexes

  datatype Page = Page(position: nat, batch: Batch, size: nat)

  function TotalSize(pages: seq<Page>): nat {
    if pages == [] then 0 else pages[0].size + TotalSize(pages[1..])
  }

  ghost predicate OnePerPosition(pages: seq<Page>) {
    forall i, j :: 0 <= i < j < |pages| ==> pages[i].position != pages[j].position
  }

  ghost predicate Fits(pages: seq<Page>, capacity: nat) {
    OnePerPosition(pages) && TotalSize(pages) <= capacity
  }

  predicate Has(pages: seq<Page>, position: nat) {
    exists i :: 0 <= i < |pages| && pages[i].position == position
  }

  lemma {:induction false} TotalOneMore(pages: seq<Page>, page: Page)
    ensures TotalSize(pages + [page]) == TotalSize(pages) + page.size
    decreases |pages|
  {
    if pages == [] {
      assert [] + [page] == [page] && [page][1..] == [];
    } else {
      assert (pages + [page])[1..] == pages[1..] + [page];
      TotalOneMore(pages[1..], page);
    }
  }

  lemma {:induction false} TotalWithout(pages: seq<Page>, i: nat)
    requires i < |pages|
    ensures TotalSize(pages[..i] + pages[i + 1..]) + pages[i].size == TotalSize(pages)
    decreases |pages|
  {
    if i == 0 {
      assert pages[..0] + pages[1..] == pages[1..];
    } else {
      assert (pages[..i] + pages[i + 1..])[1..] == pages[1..][..i - 1] + pages[1..][i..];
      TotalWithout(pages[1..], i - 1);
    }
  }

  lemma {:induction false} SizeWithinTotal(pages: seq<Page>, i: nat)
    requires i < |pages|
    ensures pages[i].size <= TotalSize(pages)
    decreases |pages|
  {
    if i > 0 { SizeWithinTotal(pages[1..], i - 1); }
  }

  lemma PageWithinCapacity(pages: seq<Page>, capacity: nat, page: Page)
    requires TotalSize(pages) <= capacity && page in pages
    ensures page.size <= capacity
  {
    var i :| 0 <= i < |pages| && pages[i] == page;
    SizeWithinTotal(pages, i);
  }

  lemma SameElements(used: seq<Page>, pages: seq<Page>)
    requires multiset(used) == multiset(pages)
    ensures forall page :: page in used <==> page in pages
  {
    assert forall page :: page in used <==> page in multiset(used);
    assert forall page :: page in pages <==> page in multiset(pages);
  }

  lemma MovedToBack(pages: seq<Page>, i: nat)
    requires i < |pages|
    ensures var used := pages[..i] + pages[i + 1..] + [pages[i]];
      multiset(used) == multiset(pages) && TotalSize(used) == TotalSize(pages)
  {
    assert pages == pages[..i] + [pages[i]] + pages[i + 1..];
    TotalWithout(pages, i);
    TotalOneMore(pages[..i] + pages[i + 1..], pages[i]);
  }

  lemma StillOnePerPosition(pages: seq<Page>, i: nat)
    requires i < |pages| && OnePerPosition(pages)
    ensures OnePerPosition(pages[..i] + pages[i + 1..] + [pages[i]])
  {
    var n, used := |pages| - 1, pages[..i] + pages[i + 1..] + [pages[i]];
    forall j, k | 0 <= j < k < |used| ensures used[j].position != used[k].position {
      var from, to := if j < i then j else j + 1, if k < i then k else if k < n then k + 1 else i;
      assert used[j] == pages[from] && used[k] == pages[to] && from != to;
    }
  }

  /** Finds a page and makes it the most recently used. */
  method Get(pages: seq<Page>, position: nat) returns (found: Option<Page>, used: seq<Page>)
    ensures found.None? <==> !Has(pages, position)
    ensures found.None? ==> used == pages
    ensures found.Some? ==>
      found.value in pages && found.value.position == position && used != [] && used[|used| - 1] == found.value
    ensures multiset(used) == multiset(pages) && TotalSize(used) == TotalSize(pages)
    ensures OnePerPosition(pages) ==> OnePerPosition(used)
  {
    for i := 0 to |pages|
      invariant forall k :: 0 <= k < i ==> pages[k].position != position
    {
      if pages[i].position == position {
        MovedToBack(pages, i);
        if OnePerPosition(pages) { StillOnePerPosition(pages, i); }
        return Some(pages[i]), pages[..i] + pages[i + 1..] + [pages[i]];
      }
    }
    return None, pages;
  }

  /** Adds a page, evicting the least recently used and no more of them than it takes; a page too large
      for the whole cache, or already there, changes nothing. */
  method Insert(pages: seq<Page>, capacity: nat, page: Page) returns (kept: seq<Page>)
    requires Fits(pages, capacity)
    ensures Fits(kept, capacity)
    ensures page.size > capacity || Has(pages, page.position) ==> kept == pages
    ensures page.size <= capacity && !Has(pages, page.position) ==>
      exists k: nat ::
        k <= |pages| && kept == pages[k..] + [page] && (k > 0 ==> TotalSize(pages[k - 1..]) + page.size > capacity)
  {
    if page.size > capacity || Has(pages, page.position) {
      return pages;
    }
    var k := 0;
    while TotalSize(pages[k..]) + page.size > capacity
      invariant k <= |pages|
      invariant k > 0 ==> TotalSize(pages[k - 1..]) + page.size > capacity
      decreases |pages| - k
    {
      assert pages[k..] != [] && pages[k..][1..] == pages[k + 1..];
      k := k + 1;
    }
    TotalOneMore(pages[k..], page);
    kept := pages[k..] + [page];
    assert forall i :: 0 <= i < |pages[k..]| ==>
      pages[k..][i] == pages[k + i] && pages[k + i].position != page.position;
  }
}
