/** Assembling a context under a token budget: which relations, saved queries and row samples
    get in, and what is said of the others.

    Rendered texts are sequences of bytes; the renderings themselves, the selection and the
    resolved mentions come in as inputs.
  */
module ContextBudget {
  import opened Options
  import opened Paths

  type Bytes = seq<bv8>

  const BYTES_PER_TOKEN: nat := 4

  /** Rounds up: a partial token counts whole. */
  function EstimateTokens(text: Bytes): (tokens: nat)
    ensures (tokens as int - 1) * 4 < |text| <= tokens * 4
  {
    (|text| + BYTES_PER_TOKEN - 1) / BYTES_PER_TOKEN
  }

  /** Estimating pieces apart never costs less than estimating them together. */
  lemma EstimateIsSubadditive(a: Bytes, b: Bytes)
    ensures EstimateTokens(a + b) <= EstimateTokens(a) + EstimateTokens(b)
  {
  }

  // ---------- taking what fits ----------

  /** What went in and what did not, the text written and the tokens used so far. */
  datatype Filled<T> = Filled(kept: seq<T>, left: seq<T>, text: Bytes, used: nat) {
    function Add(item: T, chunk: Bytes, limit: nat): Filled<T> {
      if used + EstimateTokens(chunk) > limit then this.(left := left + [item])
      else Filled(kept + [item], left, text + chunk, used + EstimateTokens(chunk))
    }
  }

  /** Each item goes in when it still fits what the items before it left. */
  function Fill<T>(items: seq<T>, render: T -> Bytes, used: nat, limit: nat): Filled<T> {
    if items == [] then Filled([], [], [], used)
    else
      var n := |items| - 1;
      Fill(items[..n], render, used, limit).Add(items[n], render(items[n]), limit)
  }

  lemma FillOneMore<T>(items: seq<T>, render: T -> Bytes, used: nat, limit: nat, item: T)
    ensures Fill(items + [item], render, used, limit) == Fill(items, render, used, limit).Add(item, render(item), limit)
  {
    assert (items + [item])[..|items|] == items;
  }

  function Cost<T>(items: seq<T>, render: T -> Bytes): nat {
    if items == [] then 0
    else Cost(items[..|items| - 1], render) + EstimateTokens(render(items[|items| - 1]))
  }

  lemma CostOneMore<T>(items: seq<T>, render: T -> Bytes, item: T)
    ensures Cost(items + [item], render) == Cost(items, render) + EstimateTokens(render(item))
  {
    assert (items + [item])[..|items|] == items;
  }

  function Text<T>(items: seq<T>, render: T -> Bytes): Bytes {
    if items == [] then [] else Text(items[..|items| - 1], render) + render(items[|items| - 1])
  }

  lemma TextOneMore<T>(items: seq<T>, render: T -> Bytes, item: T)
    ensures Text(items + [item], render) == Text(items, render) + render(item)
  {
    assert (items + [item])[..|items|] == items;
  }

  /** The tokens used are those of what was kept, and the text is theirs, in order. */
  lemma {:induction false} FillTallies<T>(items: seq<T>, render: T -> Bytes, used: nat, limit: nat)
    ensures var filled := Fill(items, render, used, limit);
      filled.used == used + Cost(filled.kept, render) && filled.text == Text(filled.kept, render)
  {
    if items != [] {
      var n := |items| - 1;
      var before := Fill(items[..n], render, used, limit);
      FillTallies(items[..n], render, used, limit);
      CostOneMore(before.kept, render, items[n]);
      TextOneMore(before.kept, render, items[n]);
    }
  }

  /** Kept and left make up the items, each once. */
  lemma {:induction false} FillSplits<T>(items: seq<T>, render: T -> Bytes, used: nat, limit: nat)
    ensures var filled := Fill(items, render, used, limit);
      && multiset(filled.kept) + multiset(filled.left) == multiset(items)
      && |filled.kept| + |filled.left| == |items|
  {
    if items != [] {
      var n := |items| - 1;
      FillSplits(items[..n], render, used, limit);
      assert items == items[..n] + [items[n]];
    }
  }

  /** Nothing kept pushes the total past the limit, unless it started past it. */
  lemma {:induction false} FillFits<T>(items: seq<T>, render: T -> Bytes, used: nat, limit: nat)
    ensures used <= Fill(items, render, used, limit).used <= (if used <= limit then limit else used)
  {
    if items != [] { FillFits(items[..|items| - 1], render, used, limit); }
  }

  /** What was left would still not fit after everything that was kept. */
  lemma {:induction false} LeftDoesNotFit<T>(items: seq<T>, render: T -> Bytes, used: nat, limit: nat)
    ensures var filled := Fill(items, render, used, limit);
      forall item :: item in filled.left ==> filled.used + EstimateTokens(render(item)) > limit
  {
    if items != [] { LeftDoesNotFit(items[..|items| - 1], render, used, limit); }
  }

  /** Whether an item goes in depends on what came before it only. */
  lemma {:induction false} KeptExactlyWhenFitting<T>(items: seq<T>, render: T -> Bytes, used: nat, limit: nat, item: T)
    ensures item in Fill(items, render, used, limit).kept <==>
      exists i :: 0 <= i < |items| && items[i] == item && FitsAt(items, render, used, limit, i)
  {
    if items != [] {
      var n := |items| - 1;
      KeptExactlyWhenFitting(items[..n], render, used, limit, item);
      forall i | 0 <= i < n
        ensures FitsAt(items[..n], render, used, limit, i) <==> FitsAt(items, render, used, limit, i) {
        assert items[..n][..i] == items[..i];
      }
      if i :| 0 <= i < n && items[i] == item && FitsAt(items, render, used, limit, i) {
        assert items[..n][i] == item && FitsAt(items[..n], render, used, limit, i);
      }
    }
  }

  predicate FitsAt<T>(items: seq<T>, render: T -> Bytes, used: nat, limit: nat, i: nat)
    requires i < |items|
  {
    Fill(items[..i], render, used, limit).used + EstimateTokens(render(items[i])) <= limit
  }

  /** When everything fits, everything is kept, in order. */
  lemma {:induction false} AllKeptWhenAllFit<T>(items: seq<T>, render: T -> Bytes, used: nat, limit: nat)
    requires used + Cost(items, render) <= limit
    ensures Fill(items, render, used, limit).kept == items
  {
    if items != [] {
      var n := |items| - 1;
      AllKeptWhenAllFit(items[..n], render, used, limit);
      FillTallies(items[..n], render, used, limit);
      assert items == items[..n] + [items[n]];
    }
  }

  /** The estimate of a text and of what was added to it is within what was counted. */
  lemma {:induction false} FillIsCharged<T>(start: Bytes, items: seq<T>, render: T -> Bytes, used: nat, limit: nat)
    requires EstimateTokens(start) <= used
    ensures var filled := Fill(items, render, used, limit); EstimateTokens(start + filled.text) <= filled.used
  {
    if items == [] {
      assert start + [] == start;
    } else {
      var n := |items| - 1;
      var before := Fill(items[..n], render, used, limit);
      FillIsCharged(start, items[..n], render, used, limit);
      EstimateIsSubadditive(start + before.text, render(items[n]));
      assert start + (before.text + render(items[n])) == (start + before.text) + render(items[n]);
    }
  }

  // ---------- the context ----------

  /** A saved query as rendered, and the line that names it when it does not fit. */
  datatype SavedQuery = SavedQuery(text: Bytes, omitted: Bytes)

  datatype Request = Request(
    header: Bytes,
    selected: seq<CatalogPath>,
    withheld: set<CatalogPath>,
    describe: CatalogPath -> Bytes,
    nameOversized: CatalogPath -> Bytes,
    mentioned: seq<CatalogPath>,
    nameOmitted: CatalogPath -> Bytes,
    queries: seq<SavedQuery>,
    allowsRowValues: bool,
    samples: seq<Bytes>,
    limit: nat)

  datatype Built = Built(
    body: Bytes,
    kept: seq<CatalogPath>,
    omitted: nat,
    leftOut: seq<Bytes>,
    droppedSamples: nat,
    used: nat)

  function Admitted(selected: seq<CatalogPath>, withheld: set<CatalogPath>): seq<CatalogPath> {
    if selected == [] then []
    else
      var n := |selected| - 1;
      Admitted(selected[..n], withheld) + (if selected[n] in withheld then [] else [selected[n]])
  }

  /** A relation too large for the budget on its own is named instead of described. */
  function Chunk(r: Request, path: CatalogPath): Bytes {
    var full := r.describe(path);
    if EstimateTokens(r.header) + EstimateTokens(full) > r.limit then r.nameOversized(path) else full
  }

  function Renderer(r: Request): CatalogPath -> Bytes {
    path => Chunk(r, path)
  }

  function QueryText(query: SavedQuery): Bytes {
    query.text
  }

  function OmittedTitle(query: SavedQuery): Bytes {
    query.omitted
  }

  function Identity(chunk: Bytes): Bytes {
    chunk
  }

  function Relations(r: Request, selected: seq<CatalogPath>): Filled<CatalogPath> {
    Fill(Admitted(selected, r.withheld), Renderer(r), EstimateTokens(r.header), r.limit)
  }

  function Queries(queries: seq<SavedQuery>, used: nat, limit: nat): Filled<SavedQuery> {
    Fill(queries, QueryText, used, limit)
  }

  function Samples(samples: seq<Bytes>, used: nat, limit: nat): Filled<Bytes> {
    Fill(samples, Identity, used, limit)
  }

  /** Mentions that were not described. */
  function Undescribed(mentioned: seq<CatalogPath>, kept: seq<CatalogPath>): seq<CatalogPath> {
    if mentioned == [] then []
    else
      var n := |mentioned| - 1;
      Undescribed(mentioned[..n], kept) + (if mentioned[n] in kept then [] else [mentioned[n]])
  }

  function NotSelected(paths: seq<CatalogPath>, selected: seq<CatalogPath>): nat {
    if paths == [] then 0
    else NotSelected(paths[..|paths| - 1], selected) + (if paths[|paths| - 1] in selected then 0 else 1)
  }

  function Lines<T>(items: seq<T>, line: T -> Bytes): (lines: seq<Bytes>)
    ensures |lines| == |items| && forall i :: 0 <= i < |items| ==> lines[i] == line(items[i])
  {
    seq(|items|, i requires 0 <= i < |items| => line(items[i]))
  }

  function LeftOut(r: Request, kept: seq<CatalogPath>, queries: seq<SavedQuery>): seq<Bytes> {
    Lines(Undescribed(r.mentioned, kept), r.nameOmitted) + Lines(queries, OmittedTitle)
  }

  /** The body, given what each stage took. */
  function Composed(r: Request): Built {
    var relations := Relations(r, r.selected);
    var queries := Queries(r.queries, relations.used, r.limit);
    var samples := if r.allowsRowValues then Samples(r.samples, queries.used, r.limit)
      else Filled([], r.samples, [], queries.used);
    var leftOut := LeftOut(r, relations.kept, queries.left);
    Built(r.header + relations.text + queries.text + Text(leftOut, Identity) + samples.text,
          relations.kept,
          |relations.left| + NotSelected(Undescribed(r.mentioned, relations.kept), r.selected),
          leftOut,
          |samples.left|,
          samples.used)
  }

  // ---------- the loops ----------

  lemma OneMoreRelation(r: Request, selected: seq<CatalogPath>, path: CatalogPath)
    ensures Relations(r, selected + [path]) ==
      if path in r.withheld then Relations(r, selected) else Relations(r, selected).Add(path, Chunk(r, path), r.limit)
  {
    assert (selected + [path])[..|selected|] == selected;
    var admitted := Admitted(selected, r.withheld);
    if path in r.withheld {
      assert admitted + [] == admitted;
    } else {
      FillOneMore(Admitted(selected, r.withheld), Renderer(r), EstimateTokens(r.header), r.limit, path);
    }
  }

  lemma TextAfter(header: Bytes, text: Bytes, chunk: Bytes)
    ensures header + text + chunk == header + (text + chunk)
  {
  }

  method AddRelations(r: Request) returns (body: Bytes, used: nat, kept: seq<CatalogPath>, omitted: nat)
    ensures var relations := Relations(r, r.selected);
      body == r.header + relations.text && used == relations.used && kept == relations.kept
        && omitted == |relations.left|
  {
    var headerCost := EstimateTokens(r.header);
    body, used, kept, omitted := r.header, headerCost, [], 0;
    ghost var relations := Relations(r, []);
    assert r.header + [] == r.header;
    for i := 0 to |r.selected|
      invariant relations == Relations(r, r.selected[..i])
      invariant body == r.header + relations.text
      invariant used == relations.used && kept == relations.kept && omitted == |relations.left|
    {
      var path := r.selected[i];
      assert r.selected[..i + 1] == r.selected[..i] + [path];
      OneMoreRelation(r, r.selected[..i], path);
      TextAfter(r.header, relations.text, Chunk(r, path));
      relations := Relations(r, r.selected[..i + 1]);
      if path in r.withheld {
        continue;
      }
      var chunk := r.describe(path);
      var cost := EstimateTokens(chunk);
      if headerCost + cost > r.limit {
        chunk := r.nameOversized(path);
        cost := EstimateTokens(chunk);
      }
      if used + cost > r.limit {
        omitted := omitted + 1;
        continue;
      }
      used := used + cost;
      body := body + chunk;
      kept := kept + [path];
    }
    assert r.selected[..|r.selected|] == r.selected;
  }

  lemma LinesOneMore<T>(items: seq<T>, line: T -> Bytes, item: T)
    ensures Lines(items + [item], line) == Lines(items, line) + [line(item)]
  {
  }

  lemma OneMoreMention(mentioned: seq<CatalogPath>, kept: seq<CatalogPath>, selected: seq<CatalogPath>,
                       path: CatalogPath)
    ensures var before, after := Undescribed(mentioned, kept), Undescribed(mentioned + [path], kept);
      && after == before + (if path in kept then [] else [path])
      && NotSelected(after, selected)
        == NotSelected(before, selected) + (if path in kept || path in selected then 0 else 1)
  {
    assert (mentioned + [path])[..|mentioned|] == mentioned;
    var before := Undescribed(mentioned, kept);
    assert (before + [path])[..|before|] == before;
    assert before + [] == before;
  }

  method NameMentions(r: Request, kept: seq<CatalogPath>) returns (leftOut: seq<Bytes>, notSelected: nat)
    ensures leftOut == Lines(Undescribed(r.mentioned, kept), r.nameOmitted)
    ensures notSelected == NotSelected(Undescribed(r.mentioned, kept), r.selected)
  {
    leftOut, notSelected := [], 0;
    ghost var undescribed := [];
    for i := 0 to |r.mentioned|
      invariant undescribed == Undescribed(r.mentioned[..i], kept)
      invariant leftOut == Lines(undescribed, r.nameOmitted)
      invariant notSelected == NotSelected(undescribed, r.selected)
    {
      var path := r.mentioned[i];
      assert r.mentioned[..i + 1] == r.mentioned[..i] + [path];
      OneMoreMention(r.mentioned[..i], kept, r.selected, path);
      LinesOneMore(undescribed, r.nameOmitted, path);
      undescribed := Undescribed(r.mentioned[..i + 1], kept);
      assert path in kept ==> undescribed == Undescribed(r.mentioned[..i], kept);
      if path in kept {
        continue;
      }
      if path !in r.selected {
        notSelected := notSelected + 1;
      }
      leftOut := leftOut + [r.nameOmitted(path)];
    }
    assert r.mentioned[..|r.mentioned|] == r.mentioned;
  }

  method AddQueries(queries: seq<SavedQuery>, limit: nat, body: Bytes, used: nat)
    returns (newBody: Bytes, newUsed: nat, omitted: seq<Bytes>)
    ensures var filled := Queries(queries, used, limit);
      newBody == body + filled.text && newUsed == filled.used && omitted == Lines(filled.left, OmittedTitle)
  {
    newBody, newUsed, omitted := body, used, [];
    ghost var filled := Queries([], used, limit);
    assert body + [] == body;
    for i := 0 to |queries|
      invariant filled == Queries(queries[..i], used, limit)
      invariant newBody == body + filled.text && newUsed == filled.used
      invariant omitted == Lines(filled.left, OmittedTitle)
    {
      var query := queries[i];
      assert queries[..i + 1] == queries[..i] + [query];
      FillOneMore(queries[..i], QueryText, used, limit, query);
      LinesOneMore(filled.left, OmittedTitle, query);
      filled := Queries(queries[..i + 1], used, limit);
      var cost := EstimateTokens(query.text);
      if newUsed + cost > limit {
        omitted := omitted + [query.omitted];
        continue;
      }
      newUsed := newUsed + cost;
      newBody := newBody + query.text;
    }
    assert queries[..|queries|] == queries;
  }

  method AddSamples(samples: seq<Bytes>, limit: nat, body: Bytes, used: nat)
    returns (newBody: Bytes, newUsed: nat, dropped: nat)
    ensures var filled := Samples(samples, used, limit);
      newBody == body + filled.text && newUsed == filled.used && dropped == |filled.left|
  {
    newBody, newUsed, dropped := body, used, 0;
    ghost var filled := Samples([], used, limit);
    assert body + [] == body;
    for i := 0 to |samples|
      invariant filled == Samples(samples[..i], used, limit)
      invariant newBody == body + filled.text && newUsed == filled.used && dropped == |filled.left|
    {
      assert samples[..i + 1] == samples[..i] + [samples[i]];
      FillOneMore(samples[..i], Identity, used, limit, samples[i]);
      filled := Samples(samples[..i + 1], used, limit);
      var cost := EstimateTokens(samples[i]);
      if newUsed + cost > limit {
        dropped := dropped + 1;
        continue;
      }
      newUsed := newUsed + cost;
      newBody := newBody + samples[i];
    }
    assert samples[..|samples|] == samples;
  }

  method AddLines(lines: seq<Bytes>, body: Bytes) returns (newBody: Bytes)
    ensures newBody == body + Text(lines, Identity)
  {
    newBody := body;
    assert body + [] == body;
    for i := 0 to |lines|
      invariant newBody == body + Text(lines[..i], Identity)
    {
      assert lines[..i + 1] == lines[..i] + [lines[i]];
      TextOneMore(lines[..i], Identity, lines[i]);
      newBody := newBody + lines[i];
    }
    assert lines[..|lines|] == lines;
  }

  /** Assembles the body: relations, then saved queries, then the lines naming what did not fit,
      then row samples where the tier lets values out. */
  method Build(r: Request) returns (built: Built)
    ensures built == Composed(r)
  {
    var body, used, kept, omitted := AddRelations(r);
    var leftOut, notSelected := NameMentions(r, kept);
    var omittedQueries;
    body, used, omittedQueries := AddQueries(r.queries, r.limit, body, used);
    leftOut := leftOut + omittedQueries;
    body := AddLines(leftOut, body);
    var dropped := |r.samples|;
    if r.allowsRowValues {
      body, used, dropped := AddSamples(r.samples, r.limit, body, used);
    }
    built := Built(body, kept, omitted + notSelected, leftOut, dropped, used);
  }

  // ---------- what a context promises ----------

  /** Everything charged, put together: the body without the lines that only name. */
  function Charged(r: Request): Bytes {
    var relations := Relations(r, r.selected);
    var queries := Queries(r.queries, relations.used, r.limit);
    r.header + relations.text + queries.text + (if r.allowsRowValues then Samples(r.samples, queries.used, r.limit).text
      else [])
  }

  /** The estimate of everything charged stays within the budget, or within the header alone. */
  lemma ChargedWithinBudget(r: Request)
    ensures EstimateTokens(Charged(r)) <= Composed(r).used
    ensures Composed(r).used <= if EstimateTokens(r.header) <= r.limit then r.limit else EstimateTokens(r.header)
  {
    var headerCost, admitted := EstimateTokens(r.header), Admitted(r.selected, r.withheld);
    var relations := Relations(r, r.selected);
    var queries := Queries(r.queries, relations.used, r.limit);
    FillIsCharged(r.header, admitted, Renderer(r), headerCost, r.limit);
    FillFits(admitted, Renderer(r), headerCost, r.limit);
    FillIsCharged(r.header + relations.text, r.queries, QueryText, relations.used, r.limit);
    FillFits(r.queries, QueryText, relations.used, r.limit);
    if r.allowsRowValues {
      FillIsCharged(r.header + relations.text + queries.text, r.samples, Identity, queries.used, r.limit);
      FillFits(r.samples, Identity, queries.used, r.limit);
    }
  }

  function Withheld(selected: seq<CatalogPath>, withheld: set<CatalogPath>): seq<CatalogPath> {
    if selected == [] then []
    else
      var n := |selected| - 1;
      Withheld(selected[..n], withheld) + (if selected[n] in withheld then [selected[n]] else [])
  }

  lemma {:induction false} AdmittedOrWithheld(selected: seq<CatalogPath>, withheld: set<CatalogPath>)
    ensures multiset(Admitted(selected, withheld)) + multiset(Withheld(selected, withheld)) == multiset(selected)
    ensures forall path :: path in Admitted(selected, withheld) ==> path !in withheld
    ensures forall path :: path in Withheld(selected, withheld) ==> path in withheld
  {
    if selected != [] {
      var n := |selected| - 1;
      AdmittedOrWithheld(selected[..n], withheld);
      assert selected == selected[..n] + [selected[n]];
    }
  }

  /** Every selected relation is kept, omitted or withheld, once; nothing withheld is described;
      the announced count is that of the omitted ones and of the mentions never selected. */
  lemma EveryRelationOnce(r: Request)
    ensures var omitted := Relations(r, r.selected).left;
      && multiset(Composed(r).kept) + multiset(omitted) + multiset(Withheld(r.selected, r.withheld))
        == multiset(r.selected)
      && (forall path :: path in Composed(r).kept ==> path !in r.withheld)
      && (forall path :: path in omitted ==> path !in r.withheld)
      && Composed(r).omitted == |omitted| + NotSelected(Undescribed(r.mentioned, Composed(r).kept), r.selected)
  {
    AdmittedOrWithheld(r.selected, r.withheld);
    var admitted, relations := Admitted(r.selected, r.withheld), Relations(r, r.selected);
    FillSplits(admitted, Renderer(r), EstimateTokens(r.header), r.limit);
    forall path | path in relations.kept || path in relations.left ensures path !in r.withheld {
      assert path in multiset(relations.kept) + multiset(relations.left);
      assert path in multiset(admitted);
    }
  }

  /** No omitted relation would fit beside those that were kept. */
  lemma OmittedDoesNotFit(r: Request, path: CatalogPath)
    requires path in Relations(r, r.selected).left
    ensures EstimateTokens(r.header) + Cost(Composed(r).kept, Renderer(r)) + EstimateTokens(Chunk(r, path)) > r.limit
  {
    var admitted, render := Admitted(r.selected, r.withheld), Renderer(r);
    LeftDoesNotFit(admitted, render, EstimateTokens(r.header), r.limit);
    FillTallies(admitted, render, EstimateTokens(r.header), r.limit);
  }

  lemma {:induction false} CostHas<T>(items: seq<T>, render: T -> Bytes, item: T)
    requires item in items
    ensures EstimateTokens(render(item)) <= Cost(items, render)
  {
    var n := |items| - 1;
    if item != items[n] { CostHas(items[..n], render, item); }
  }

  /** When all descriptions fit together, every admitted relation is kept, described in full. */
  lemma EverythingFits(r: Request)
    requires EstimateTokens(r.header) + Cost(Admitted(r.selected, r.withheld), r.describe) <= r.limit
    ensures Composed(r).kept == Admitted(r.selected, r.withheld)
    ensures Relations(r, r.selected).text == Text(Admitted(r.selected, r.withheld), r.describe)
  {
    var admitted, render := Admitted(r.selected, r.withheld), Renderer(r);
    forall path | path in admitted ensures Chunk(r, path) == r.describe(path) {
      CostHas(admitted, r.describe, path);
    }
    SameOnItems(admitted, render, r.describe);
    AllKeptWhenAllFit(admitted, render, EstimateTokens(r.header), r.limit);
    FillTallies(admitted, render, EstimateTokens(r.header), r.limit);
  }

  lemma {:induction false} SameOnItems<T>(items: seq<T>, render: T -> Bytes, other: T -> Bytes)
    requires forall item :: item in items ==> render(item) == other(item)
    ensures Cost(items, render) == Cost(items, other)
    ensures Text(items, render) == Text(items, other)
  {
    if items != [] { SameOnItems(items[..|items| - 1], render, other); }
  }

  lemma {:induction false} UndescribedHas(mentioned: seq<CatalogPath>, kept: seq<CatalogPath>, path: CatalogPath)
    ensures path in Undescribed(mentioned, kept) <==> path in mentioned && path !in kept
  {
    if mentioned != [] {
      UndescribedHas(mentioned[..|mentioned| - 1], kept, path);
    }
  }

  /** A mention is never lost: it is described, or a line names it. */
  lemma MentionsAreAnswered(r: Request, path: CatalogPath)
    requires path in r.mentioned
    ensures path in Composed(r).kept || r.nameOmitted(path) in Composed(r).leftOut
  {
    var kept := Composed(r).kept;
    UndescribedHas(r.mentioned, kept, path);
    if path !in kept {
      var undescribed := Undescribed(r.mentioned, kept);
      var i :| 0 <= i < |undescribed| && undescribed[i] == path;
      assert Composed(r).leftOut[i] == Lines(undescribed, r.nameOmitted)[i] == r.nameOmitted(path);
    }
  }

  /** A relation is described in full when its description would fit beside the header alone, else named. */
  lemma DescribedOrNamed(r: Request, path: CatalogPath)
    ensures EstimateTokens(r.header) + EstimateTokens(r.describe(path)) <= r.limit ==>
      Renderer(r)(path) == r.describe(path)
    ensures EstimateTokens(r.header) + EstimateTokens(r.describe(path)) > r.limit ==>
      Renderer(r)(path) == r.nameOversized(path)
  {
  }

  function QueryTexts(queries: seq<SavedQuery>): Bytes {
    if queries == [] then [] else QueryTexts(queries[..|queries| - 1]) + queries[|queries| - 1].text
  }

  function Joined(chunks: seq<Bytes>): Bytes {
    if chunks == [] then [] else Joined(chunks[..|chunks| - 1]) + chunks[|chunks| - 1]
  }

  lemma {:induction false} TextsAreJoined(queries: seq<SavedQuery>, chunks: seq<Bytes>)
    ensures Text(queries, QueryText) == QueryTexts(queries)
    ensures Text(chunks, Identity) == Joined(chunks)
    decreases |queries| + |chunks|
  {
    if queries != [] { TextsAreJoined(queries[..|queries| - 1], []); }
    if chunks != [] { TextsAreJoined([], chunks[..|chunks| - 1]); }
  }

  /** The body is, in this order: the header, the relations kept, the saved queries kept, the lines naming what
      is not there, and the rows kept; queries and rows are taken from what was offered, as far as they fit. */
  lemma BodyIsInOrder(r: Request) returns (queries: seq<SavedQuery>, rows: seq<Bytes>)
    ensures Composed(r).body ==
      r.header + Text(Composed(r).kept, Renderer(r)) + QueryTexts(queries) + Joined(Composed(r).leftOut) + Joined(rows)
    ensures forall q :: q in queries ==> q in r.queries
    ensures forall q :: q in r.queries ==> q in queries || q.omitted in Composed(r).leftOut
    ensures r.allowsRowValues ==> |rows| + Composed(r).droppedSamples == |r.samples|
    ensures forall row :: row in rows ==> row in r.samples
    ensures !r.allowsRowValues ==> rows == []
  {
    var admitted, relations := Admitted(r.selected, r.withheld), Relations(r, r.selected);
    var taken := Queries(r.queries, relations.used, r.limit);
    var sampled := Samples(r.samples, taken.used, r.limit);
    queries, rows := taken.kept, if r.allowsRowValues then sampled.kept else [];
    FillTallies(admitted, Renderer(r), EstimateTokens(r.header), r.limit);
    FillTallies(r.queries, QueryText, relations.used, r.limit);
    FillTallies(r.samples, Identity, taken.used, r.limit);
    TextsAreJoined(queries, Composed(r).leftOut);
    TextsAreJoined([], rows);
    KeptOrLeft(r.queries, QueryText, relations.used, r.limit);
    KeptOrLeft(r.samples, Identity, taken.used, r.limit);
    OmittedAreNamed(r, taken.left);
  }

  lemma KeptOrLeft<T>(items: seq<T>, render: T -> Bytes, used: nat, limit: nat)
    ensures var filled := Fill(items, render, used, limit);
      && |filled.kept| + |filled.left| == |items|
      && (forall item :: item in filled.kept ==> item in items)
      && (forall item :: item in items ==> item in filled.kept || item in filled.left)
  {
    FillSplits(items, render, used, limit);
    var filled := Fill(items, render, used, limit);
    forall item | item in filled.kept ensures item in items {
      assert item in multiset(filled.kept) + multiset(filled.left);
    }
    forall item | item in items ensures item in filled.kept || item in filled.left {
      assert item in multiset(items);
    }
  }

  lemma OmittedAreNamed(r: Request, left: seq<SavedQuery>)
    requires left == Queries(r.queries, Relations(r, r.selected).used, r.limit).left
    ensures forall q :: q in left ==> q.omitted in Composed(r).leftOut
  {
    var mentions := Lines(Undescribed(r.mentioned, Relations(r, r.selected).kept), r.nameOmitted);
    forall q | q in left ensures q.omitted in Composed(r).leftOut {
      var i :| 0 <= i < |left| && left[i] == q;
      assert Composed(r).leftOut[|mentions| + i] == Lines(left, OmittedTitle)[i] == q.omitted;
    }
  }

  /** Where the tier lets no value out, the context does not depend on the rows offered, and says
      all of them were dropped. */
  lemma NoRowLeavesBelowItsTier(r: Request, samples: seq<Bytes>)
    requires !r.allowsRowValues
    ensures Composed(r).droppedSamples == |r.samples|
    ensures Composed(r.(samples := samples)).body == Composed(r).body
    ensures Composed(r.(samples := samples)).used == Composed(r).used
  {
    var other := r.(samples := samples);
    SameFill(Admitted(r.selected, r.withheld), Renderer(r), Renderer(other), EstimateTokens(r.header), r.limit);
  }

  lemma {:induction false} SameFill<T>(items: seq<T>, render: T -> Bytes, other: T -> Bytes, used: nat, limit: nat)
    requires forall item :: render(item) == other(item)
    ensures Fill(items, render, used, limit) == Fill(items, other, used, limit)
  {
    if items != [] { SameFill(items[..|items| - 1], render, other, used, limit); }
  }
}
