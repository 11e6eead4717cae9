/** How a relation's fields are described: which lines are written, and what the count of the
    fields left out says.

    Counts are unbounded; the machine's counters saturate far beyond any field tree.
  */
module ContextFields {
  import opened Nesting

  /** The deepest a field is rendered, top-level fields included; also how far the fields
      left out are counted. */
  const MAX_FIELD_DEPTH: nat := 4

  /** One written line: the field, and the level its indentation shows. */
  datatype Line = Line(level: nat, field: Field)

  /** What was left out: how many fields, and whether some were not reached. */
  datatype OmittedFields = OmittedFields(count: nat, uncounted: bool) {
    function Absorb(other: OmittedFields): OmittedFields {
      OmittedFields(count + other.count, uncounted || other.uncounted)
    }
  }

  const NOTHING_OMITTED := OmittedFields(0, false)

  /** The fields directly under a type, arrays being looked through. */
  function Nested(logical: LogicalType): (r: seq<Field>)
    ensures r != [] ==> Struct(r) == logical || Struct(r) < logical
  {
    match logical
    case Struct(fields) => fields
    case Array(inner) => Nested(inner)
    case _ => []
  }

  function ArrayOf(levels: nat, logical: LogicalType): LogicalType {
    if levels == 0 then logical else Array(ArrayOf(levels - 1, logical))
  }

  /** The fields of a structure, of an array of structures, of an array of those and so on, are the
      structure's; arrays of anything else have none. */
  lemma {:induction false} FieldsThroughArrays(levels: nat, logical: LogicalType)
    requires !logical.Array?
    ensures Nested(ArrayOf(levels, logical)) == if logical.Struct? then logical.fields else []
  {
    if levels > 0 { FieldsThroughArrays(levels - 1, logical); }
  }

  method NestedFields(logical: LogicalType) returns (fields: seq<Field>)
    ensures fields == Nested(logical)
  {
    var at := logical;
    while at.Array?
      invariant Nested(at) == Nested(logical)
      decreases at
    {
      at := at.inner;
    }
    fields := if at.Struct? then at.fields else [];
  }

  // ---------- what a field tree holds ----------

  /** Every field of the tree. */
  function Total(fields: seq<Field>): nat
    decreases fields
  {
    if fields == [] then 0 else 1 + TotalBelow(fields[0]) + Total(fields[1..])
  }

  function TotalBelow(field: Field): nat
    decreases field
  {
    var nested := Nested(field.logical);
    if nested == [] then 0 else
      assert Struct(nested).fields == nested;
      Total(Struct(nested).fields)
  }

  /** The levels of the tree. */
  function Depth(fields: seq<Field>): nat
    decreases fields
  {
    if fields == [] then 0 else Max(1 + DepthBelow(fields[0]), Depth(fields[1..]))
  }

  function DepthBelow(field: Field): nat
    decreases field
  {
    var nested := Nested(field.logical);
    if nested == [] then 0 else
      assert Struct(nested).fields == nested;
      Depth(Struct(nested).fields)
  }

  function Max(a: nat, b: nat): nat {
    if a < b then b else a
  }

  /** The fields of the tree down to level `deepest`, each before its subfields. */
  function Outline(fields: seq<Field>, level: nat, deepest: nat): seq<Line>
    decreases fields
  {
    if fields == [] || level > deepest then []
    else [Line(level, fields[0])] + OutlineBelow(fields[0], level + 1, deepest) + Outline(fields[1..], level, deepest)
  }

  function OutlineBelow(field: Field, level: nat, deepest: nat): seq<Line>
    decreases field
  {
    var nested := Nested(field.logical);
    if nested == [] then [] else
      assert Struct(nested).fields == nested;
      Outline(Struct(nested).fields, level, deepest)
  }

  function First<T>(s: seq<T>, n: nat): seq<T> {
    if n < |s| then s[..n] else s
  }

  lemma FirstConcat<T>(a: seq<T>, b: seq<T>, n: nat)
    ensures First(a + b, n) == First(a, n) + First(b, n - |First(a, n)|)
  {
  }

  lemma {:induction false} OutlineLevels(fields: seq<Field>, level: nat, deepest: nat)
    ensures forall line :: line in Outline(fields, level, deepest) ==> level <= line.level <= deepest
    decreases fields
  {
    if fields != [] && level <= deepest {
      var nested := Nested(fields[0].logical);
      if nested != [] {
        assert Struct(nested).fields == nested;
        OutlineLevels(Struct(nested).fields, level + 1, deepest);
      }
      OutlineLevels(fields[1..], level, deepest);
    }
  }

  lemma {:induction false} OutlineShift(fields: seq<Field>, level: nat, deepest: nat)
    ensures |Outline(fields, level + 1, deepest + 1)| == |Outline(fields, level, deepest)|
    decreases fields
  {
    if fields != [] && level <= deepest {
      var nested := Nested(fields[0].logical);
      if nested != [] {
        assert Struct(nested).fields == nested;
        OutlineShift(Struct(nested).fields, level + 1, deepest);
      }
      OutlineShift(fields[1..], level, deepest);
    }
  }

  /** The outline misses a field exactly when the tree goes deeper than it does. */
  lemma {:induction false} OutlineIsWhole(fields: seq<Field>, level: nat, deepest: nat)
    requires level <= deepest + 1
    ensures |Outline(fields, level, deepest)| <= Total(fields)
    ensures |Outline(fields, level, deepest)| == Total(fields) <==> level + Depth(fields) <= deepest + 1
    decreases fields
  {
    if fields != [] && level <= deepest {
      var nested := Nested(fields[0].logical);
      if nested != [] {
        assert Struct(nested).fields == nested;
        OutlineIsWhole(Struct(nested).fields, level + 1, deepest);
      }
      OutlineIsWhole(fields[1..], level, deepest);
    }
  }

  // ---------- counting what is not rendered ----------

  /** Counts the subfields of a type over at most `levels` levels, and says whether there are more. */
  method CountNested(logical: LogicalType, levels: nat) returns (tally: OmittedFields)
    ensures tally.count == |Outline(Nested(logical), 1, levels)|
    ensures tally.uncounted <==> Depth(Nested(logical)) > levels
    decreases logical
  {
    var nested := NestedFields(logical);
    tally := NOTHING_OMITTED;
    if nested == [] {
      return;
    }
    if levels == 0 {
      tally := OmittedFields(0, true);
      return;
    }
    var i := 0;
    while i < |nested|
      invariant i <= |nested|
      invariant tally.count + |Outline(nested[i..], 1, levels)| == |Outline(nested, 1, levels)|
      invariant (tally.uncounted || Depth(nested[i..]) > levels) <==> Depth(nested) > levels
    {
      assert Struct(nested).fields == nested && nested[i] < Struct(nested);
      assert nested[i..][0] == nested[i] && nested[i..][1..] == nested[i + 1..];
      OutlineShift(Nested(nested[i].logical), 1, levels - 1);
      var below := CountNested(nested[i].logical, levels - 1);
      tally := OmittedFields(tally.count + 1, tally.uncounted).Absorb(below);
      i := i + 1;
    }
  }

  /** What a field left out adds to the count. */
  method CountHidden(field: Field) returns (hidden: OmittedFields)
    ensures hidden.count <= 1 + TotalBelow(field)
    ensures hidden.count == 1 + TotalBelow(field) <==> !hidden.uncounted
    ensures hidden.uncounted <==> DepthBelow(field) > MAX_FIELD_DEPTH
  {
    var below := CountNested(field.logical, MAX_FIELD_DEPTH);
    OutlineIsWhole(Nested(field.logical), 1, MAX_FIELD_DEPTH);
    hidden := OmittedFields(1, false).Absorb(below);
  }

  // ---------- rendering ----------

  /** How deep a tree must go, rendered from `level`, for a field to be out of reach whatever the limit. */
  const REACH: nat := 2 * MAX_FIELD_DEPTH + 1

  /** What rendering `fields` from `level` under a limit has to give: the lines are the first of
      the outline; lines and count make up every field, unless the count says it is incomplete;
      how deep the tree goes decides when it may be, and when it must. */
  ghost predicate Accounted(fields: seq<Field>, level: nat, budget: nat, lines: seq<Line>, hidden: OmittedFields,
                            left: nat) {
    && lines == First(Outline(fields, level, MAX_FIELD_DEPTH), budget)
    && left == budget - |lines|
    && |lines| + hidden.count <= Total(fields)
    && (|lines| + hidden.count == Total(fields) <==> !hidden.uncounted)
    && (hidden.uncounted ==> Depth(fields) > MAX_FIELD_DEPTH + 1)
    && (level + Depth(fields) > REACH + 1 ==> hidden.uncounted)
    && (budget == 0 && Depth(fields) > MAX_FIELD_DEPTH + 1 ==> hidden.uncounted)
    && (|Outline(fields, level, MAX_FIELD_DEPTH)| <= budget && hidden.uncounted ==> level + Depth(fields) > REACH + 1)
  }

  lemma {:induction false} TreeConcat(a: seq<Field>, b: seq<Field>, level: nat, deepest: nat)
    ensures Outline(a + b, level, deepest) == Outline(a, level, deepest) + Outline(b, level, deepest)
    ensures Total(a + b) == Total(a) + Total(b)
    ensures Depth(a + b) == Max(Depth(a), Depth(b))
    decreases |a|
  {
    if a == [] {
      assert a + b == b;
    } else {
      assert (a + b)[0] == a[0] && (a + b)[1..] == a[1..] + b;
      TreeConcat(a[1..], b, level, deepest);
    }
  }

  lemma AccountedConcat(a: seq<Field>, b: seq<Field>, level: nat, budget: nat,
                        lines: seq<Line>, hidden: OmittedFields, between: nat,
                        more: seq<Line>, moreHidden: OmittedFields, left: nat)
    requires Accounted(a, level, budget, lines, hidden, between)
    requires Accounted(b, level, between, more, moreHidden, left)
    ensures Accounted(a + b, level, budget, lines + more, hidden.Absorb(moreHidden), left)
  {
    TreeConcat(a, b, level, MAX_FIELD_DEPTH);
    FirstConcat(Outline(a, level, MAX_FIELD_DEPTH), Outline(b, level, MAX_FIELD_DEPTH), budget);
  }

  lemma OneField(field: Field, level: nat)
    ensures Total([field]) == 1 + TotalBelow(field)
    ensures Depth([field]) == 1 + DepthBelow(field)
    ensures level <= MAX_FIELD_DEPTH ==>
      Outline([field], level, MAX_FIELD_DEPTH) == [Line(level, field)] + OutlineBelow(field, level + 1, MAX_FIELD_DEPTH)
  {
    assert [field][1..] == [];
    assert Outline([], level, MAX_FIELD_DEPTH) == [];
  }

  lemma AccountedHidden(field: Field, level: nat, hidden: OmittedFields)
    requires 1 <= level <= MAX_FIELD_DEPTH
    requires hidden.count <= 1 + TotalBelow(field)
    requires hidden.count == 1 + TotalBelow(field) <==> !hidden.uncounted
    requires hidden.uncounted <==> DepthBelow(field) > MAX_FIELD_DEPTH
    ensures Accounted([field], level, 0, [], hidden, 0)
  {
    OneField(field, level);
  }

  lemma AccountedBelow(field: Field, level: nat, budget: nat, lines: seq<Line>, hidden: OmittedFields, left: nat)
    requires 1 <= level < MAX_FIELD_DEPTH && budget > 0
    requires Accounted(Nested(field.logical), level + 1, budget - 1, lines, hidden, left)
    ensures Accounted([field], level, budget, [Line(level, field)] + lines, hidden, left)
  {
    OneField(field, level);
    FirstConcat([Line(level, field)], OutlineBelow(field, level + 1, MAX_FIELD_DEPTH), budget);
  }

  lemma AccountedDeepest(field: Field, budget: nat, hidden: OmittedFields)
    requires budget > 0
    requires hidden.count <= TotalBelow(field)
    requires hidden.count == TotalBelow(field) <==> !hidden.uncounted
    requires hidden.uncounted <==> DepthBelow(field) > MAX_FIELD_DEPTH + 1
    ensures Accounted([field], MAX_FIELD_DEPTH, budget, [Line(MAX_FIELD_DEPTH, field)], hidden, budget - 1)
  {
    OneField(field, MAX_FIELD_DEPTH);
  }

  /** The lines of a list of fields, with the count of those they leave out. */
  method RenderFieldList(fields: seq<Field>, level: nat, budget: nat)
    returns (lines: seq<Line>, hidden: OmittedFields, left: nat)
    requires 1 <= level <= MAX_FIELD_DEPTH
    ensures Accounted(fields, level, budget, lines, hidden, left)
    ensures lines == First(Outline(fields, level, 4), budget)
    decreases fields
  {
    lines, hidden, left := [], NOTHING_OMITTED, budget;
    var i := 0;
    while i < |fields|
      invariant i <= |fields|
      invariant Accounted(fields[..i], level, budget, lines, hidden, left)
    {
      var field := fields[i];
      ghost var linesBefore, hiddenBefore, leftBefore := lines, hidden, left;
      var added, addedHidden := [], NOTHING_OMITTED;
      if left == 0 {
        addedHidden := CountHidden(field);
        AccountedHidden(field, level, addedHidden);
      } else {
        left := left - 1;
        added := [Line(level, field)];
        var nested := NestedFields(field.logical);
        assert nested != [] ==> Struct(nested).fields == nested;
        if level >= MAX_FIELD_DEPTH {
          addedHidden := CountAllHidden(nested);
          AccountedDeepest(field, leftBefore, addedHidden);
        } else if nested != [] {
          var deeper;
          deeper, addedHidden, left := RenderFieldList(nested, level + 1, left);
          AccountedBelow(field, level, leftBefore, deeper, addedHidden, left);
          added := added + deeper;
        } else {
          AccountedBelow(field, level, leftBefore, [], NOTHING_OMITTED, left);
          assert added + [] == added;
        }
      }
      AccountedConcat(fields[..i], [field], level, budget, linesBefore, hiddenBefore, leftBefore, added, addedHidden,
        left);
      assert fields[..i] + [field] == fields[..i + 1];
      lines, hidden := lines + added, hidden.Absorb(addedHidden);
      i := i + 1;
    }
    assert fields[..i] == fields;
  }

  /** The fields below the deepest level rendered. */
  method CountAllHidden(fields: seq<Field>) returns (hidden: OmittedFields)
    ensures hidden.count <= Total(fields)
    ensures hidden.count == Total(fields) <==> !hidden.uncounted
    ensures hidden.uncounted <==> Depth(fields) > MAX_FIELD_DEPTH + 1
  {
    hidden := NOTHING_OMITTED;
    var i := 0;
    while i < |fields|
      invariant i <= |fields|
      invariant hidden.count + Total(fields[i..]) <= Total(fields)
      invariant hidden.count + Total(fields[i..]) == Total(fields) <==> !hidden.uncounted
      invariant (hidden.uncounted || Depth(fields[i..]) > MAX_FIELD_DEPTH + 1) <==> Depth(fields) > MAX_FIELD_DEPTH + 1
    {
      assert fields[i..][0] == fields[i] && fields[i..][1..] == fields[i + 1..];
      var more := CountHidden(fields[i]);
      hidden := hidden.Absorb(more);
      i := i + 1;
    }
  }

  datatype FieldNotice = AllShown | MoreOmitted(count: nat) | TooDeepToCount | NoFieldsKnown

  /** A relation's fields within the policy's limit, and what is announced of the rest: a figure
      is written only when it is the exact number of the fields not shown. */
  method RenderFields(fields: seq<Field>, limit: nat) returns (lines: seq<Line>, notice: FieldNotice)
    ensures lines == First(Outline(fields, 1, MAX_FIELD_DEPTH), limit)
    ensures |lines| <= limit
    ensures forall i :: 0 <= i < |lines| ==> 1 <= lines[i].level <= MAX_FIELD_DEPTH
    ensures notice == NoFieldsKnown <==> fields == []
    ensures notice == AllShown ==> |lines| == Total(fields)
    ensures notice.MoreOmitted? ==> notice.count == Total(fields) - |lines| && notice.count > 0
    ensures notice == TooDeepToCount ==> |lines| < Total(fields) && Depth(fields) > MAX_FIELD_DEPTH + 1
  {
    if fields == [] {
      return [], NoFieldsKnown;
    }
    var hidden, left;
    lines, hidden, left := RenderFieldList(fields, 1, limit);
    OutlineLevels(fields, 1, MAX_FIELD_DEPTH);
    assert forall i :: 0 <= i < |lines| ==> lines[i] in Outline(fields, 1, MAX_FIELD_DEPTH);
    notice := if hidden.uncounted then TooDeepToCount
              else if hidden.count > 0 then MoreOmitted(hidden.count)
              else AllShown;
  }
}
