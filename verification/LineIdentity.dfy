/** Identity of a checkout line across the storefront: a line's id is written on the cart line, comes back on
    the paid order line, and is the only thing the two sides are matched by. */
module LineIdentity {
  import opened Wrappers

  datatype Result<+T, +E> = Ok(value: T) | Err(error: E)

  const LINE_ID_KEY := "festival_checkout_intent_line_id"

  datatype LineType = ClassEntry | Membership

  datatype IntentLine = IntentLine(
    id: string, intentId: string, lineIndex: int, lineType: LineType,
    festivalClassId: Option<string>, childId: Option<string>,
    productGid: string, variantGid: string, amount: string, currency: string)

  /** The validated request a stored line must agree with. */
  datatype ExpectedLine = ExpectedLine(
    festivalClassId: string, childId: string,
    productGid: string, variantGid: string, amount: string, currency: string)

  datatype LineInput = LineInput(
    id: Option<string>, lineIndex: Option<int>, lineType: Option<LineType>,
    festivalClassId: Option<string>, childId: Option<string>,
    productGid: string, variantGid: string, amount: string, currency: string)

  datatype Intent = Intent(
    id: string, intentType: LineType, festivalClassId: Option<string>, childId: Option<string>,
    productGid: string, variantGid: string, amount: string, currency: string)

  datatype Attribute = Attribute(key: string, value: string)

  datatype CartLine = CartLine(variantGid: string, quantity: int, attributes: seq<Attribute>)

  datatype OrderLine = OrderLine(
    id: string, productGid: string, variantGid: string, quantity: int,
    paidAmount: string, paidCurrency: string, attributes: seq<Attribute>)

  datatype Pair = Pair(intentLine: IntentLine, orderLine: OrderLine)

  datatype MappingError = Incomplete | Invalid | Mismatch

  // ---------------------------------------------------------------------------
  // Canonical ids
  // ---------------------------------------------------------------------------

  predicate IsHex(c: char) {
    '0' <= c <= '9' || 'a' <= c <= 'f'
  }

  predicate IsCanonicalUuid(s: string) {
    && |s| == 36
    && (forall i :: 0 <= i < 36 ==> if i == 8 || i == 13 || i == 18 || i == 23 then s[i] == '-' else IsHex(s[i]))
    && '1' <= s[14] <= '5'
    && (s[19] == '8' || s[19] == '9' || s[19] == 'a' || s[19] == 'b')
  }

  // ---------------------------------------------------------------------------
  // Building the lines of an intent, and the cart lines of a checkout
  // ---------------------------------------------------------------------------

  function Or<T>(a: Option<T>, b: T): T {
    if a.Some? then a.value else b
  }

  /** `drawn` are the random ids drawn for lines that bring none. */
  function BuildIntentLineRecords(intent: Intent, inputs: seq<LineInput>, drawn: seq<string>): seq<IntentLine>
    requires |drawn| == if inputs == [] then 1 else |inputs|
  {
    if inputs == [] then
      [IntentLine(drawn[0], intent.id, 0, intent.intentType, intent.festivalClassId, intent.childId,
                  intent.productGid, intent.variantGid, intent.amount, intent.currency)]
    else
      seq(|inputs|, k requires 0 <= k < |inputs| =>
        var l := inputs[k];
        IntentLine(Or(l.id, drawn[k]), intent.id, Or(l.lineIndex, k), Or(l.lineType, ClassEntry),
                   l.festivalClassId, l.childId, l.productGid, l.variantGid, l.amount, l.currency))
  }

  /** The inputs the class checkout hands to storage: one per validated line, numbered from zero. */
  function ClassLineInputs(expected: seq<ExpectedLine>): seq<LineInput> {
    seq(|expected|, k requires 0 <= k < |expected| =>
      var e := expected[k];
      LineInput(None, Some(k), Some(ClassEntry), Some(e.festivalClassId), Some(e.childId),
                e.productGid, e.variantGid, e.amount, e.currency))
  }

  /** Cart emission: position k carries the k-th validated variant and the id of the k-th restored line. */
  function CartLines(expected: seq<ExpectedLine>, lines: seq<IntentLine>): seq<CartLine>
    requires |lines| == |expected|
  {
    seq(|expected|, k requires 0 <= k < |expected| =>
      CartLine(expected[k].variantGid, 1, [Attribute(LINE_ID_KEY, lines[k].id)]))
  }

  // ---------------------------------------------------------------------------
  // Restoring the order of stored lines
  // ---------------------------------------------------------------------------

  predicate Belongs(line: IntentLine, intentId: string, n: int) {
    line.intentId == intentId && 0 <= line.lineIndex < n && IsCanonicalUuid(line.id)
  }

  predicate Matches(line: IntentLine, e: ExpectedLine) {
    && line.lineType == ClassEntry
    && line.festivalClassId == Some(e.festivalClassId)
    && line.childId == Some(e.childId)
    && line.productGid == e.productGid
    && line.variantGid == e.variantGid
    && line.amount == e.amount
    && line.currency == e.currency
  }

  predicate IdsDistinct(lines: seq<IntentLine>) {
    forall i, j :: 0 <= i < j < |lines| ==> lines[i].id != lines[j].id
  }

  predicate IndicesDistinct(lines: seq<IntentLine>) {
    forall i, j :: 0 <= i < j < |lines| ==> lines[i].lineIndex != lines[j].lineIndex
  }

  /** Every line belongs to the intent, no two share an index or an id, and each agrees with the validated
      line its index names. */
  predicate Maps(intentId: string, lines: seq<IntentLine>, expected: seq<ExpectedLine>) {
    && (forall i :: 0 <= i < |lines| ==>
          Belongs(lines[i], intentId, |expected|) && Matches(lines[i], expected[lines[i].lineIndex]))
    && IndicesDistinct(lines)
    && IdsDistinct(lines)
  }

  predicate HasNewIdentity(intentId: string, lines: seq<IntentLine>, n: int, i: int)
    requires 0 <= i < |lines|
  {
    && Belongs(lines[i], intentId, n)
    && forall j :: 0 <= j < i ==> lines[j].lineIndex != lines[i].lineIndex && lines[j].id != lines[i].id
  }

  /** Line `i` is the first that breaks the mapping, and `e` says in which way. */
  predicate FirstFault(intentId: string, lines: seq<IntentLine>, expected: seq<ExpectedLine>, i: int, e: MappingError) {
    && 0 <= i < |lines|
    && Maps(intentId, lines[..i], expected)
    && !Maps(intentId, lines[..i + 1], expected)
    && e == if HasNewIdentity(intentId, lines, |expected|, i) then Mismatch else Invalid
  }

  /** Each stored line is at the position its index names. */
  predicate Restores(lines: seq<IntentLine>, restored: seq<IntentLine>) {
    && |restored| == |lines|
    && forall i :: 0 <= i < |lines| ==>
         0 <= lines[i].lineIndex < |restored| && restored[lines[i].lineIndex] == lines[i]
  }

  lemma MapsStep(intentId: string, lines: seq<IntentLine>, expected: seq<ExpectedLine>, i: int)
    requires 0 <= i < |lines| && Maps(intentId, lines[..i], expected)
    ensures Maps(intentId, lines[..i + 1], expected)
       <==> HasNewIdentity(intentId, lines, |expected|, i) && Matches(lines[i], expected[lines[i].lineIndex])
  {
    hide IsCanonicalUuid, Matches;
    var a, b := lines[..i], lines[..i + 1];
    assert b[i] == lines[i];
    assert forall j :: 0 <= j < i ==> b[j] == a[j] == lines[j];
    if Maps(intentId, b, expected) {
      assert forall j :: 0 <= j < i ==> b[j].lineIndex != b[i].lineIndex && b[j].id != b[i].id;
    }
  }

  /** The table of the first `i` lines by index. */
  predicate IndexTable(lines: seq<IntentLine>, i: nat, m: map<int, IntentLine>)
    requires i <= |lines|
  {
    && |m| == i
    && (forall j :: 0 <= j < i ==> lines[j].lineIndex in m && m[lines[j].lineIndex] == lines[j])
    && (forall k :: k in m ==> exists j :: 0 <= j < i && lines[j].lineIndex == k)
  }

  /** The ids of the first `i` lines. */
  predicate IdTable(lines: seq<IntentLine>, i: nat, ids: set<string>)
    requires i <= |lines|
  {
    && (forall j :: 0 <= j < i ==> lines[j].id in ids)
    && (forall id :: id in ids ==> exists j :: 0 <= j < i && lines[j].id == id)
  }

  lemma IndexTableStep(lines: seq<IntentLine>, i: nat, m: map<int, IntentLine>)
    requires i < |lines| && IndexTable(lines, i, m) && lines[i].lineIndex !in m
    ensures IndexTable(lines, i + 1, m[lines[i].lineIndex := lines[i]])
  {
    var m' := m[lines[i].lineIndex := lines[i]];
    forall k | k in m' ensures exists j :: 0 <= j < i + 1 && lines[j].lineIndex == k {
      assert k in m || k == lines[i].lineIndex;
    }
  }

  lemma IdTableStep(lines: seq<IntentLine>, i: nat, ids: set<string>)
    requires i < |lines| && IdTable(lines, i, ids)
    ensures IdTable(lines, i + 1, ids + {lines[i].id})
  {
    forall id | id in ids + {lines[i].id} ensures exists j :: 0 <= j < i + 1 && lines[j].id == id {
      assert id in ids || id == lines[i].id;
    }
  }

  /** The two lookups of the loop decide whether the line's identity is new. */
  lemma LookupsDecide(intentId: string, lines: seq<IntentLine>, n: int, i: nat, m: map<int, IntentLine>,
                      ids: set<string>)
    requires i < |lines| && IndexTable(lines, i, m) && IdTable(lines, i, ids)
    ensures HasNewIdentity(intentId, lines, n, i)
       <==> Belongs(lines[i], intentId, n) && lines[i].lineIndex !in m && lines[i].id !in ids
  {
    hide Belongs;
  }

  lemma IndexTableDone(lines: seq<IntentLine>, m: map<int, IntentLine>, n: int)
    requires IndexTable(lines, |lines|, m)
    requires forall i :: 0 <= i < |lines| ==> 0 <= lines[i].lineIndex < n
    ensures |m| == |lines|
    ensures forall i :: 0 <= i < |lines| ==> lines[i].lineIndex in m && m[lines[i].lineIndex] == lines[i]
    ensures forall k :: k in m ==> 0 <= k < n
  {
  }

  method IndexLines(intentId: string, lines: seq<IntentLine>, expected: seq<ExpectedLine>)
    returns (r: Result<map<int, IntentLine>, MappingError>)
    requires |lines| == |expected|
    ensures r.Ok? <==> Maps(intentId, lines, expected)
    ensures r.Ok? ==> IndexTable(lines, |lines|, r.value)
    ensures r.Err? ==> r.error != Incomplete && exists i :: FirstFault(intentId, lines, expected, i, r.error)
  {
    hide Maps, Matches, IsCanonicalUuid, IndexTable, IdTable, HasNewIdentity, FirstFault;
    NothingMaps(intentId, lines, expected);
    var linesByIndex: map<int, IntentLine>, lineIds: set<string> := map[], {};
    var i := 0;
    while i < |lines|
      invariant 0 <= i <= |lines|
      invariant Maps(intentId, lines[..i], expected)
      invariant IndexTable(lines, i, linesByIndex) && IdTable(lines, i, lineIds)
    {
      MapsStep(intentId, lines, expected, i);
      LookupsDecide(intentId, lines, |expected|, i, linesByIndex, lineIds);
      var line := lines[i];
      if line.intentId != intentId || line.lineIndex < 0 || line.lineIndex >= |expected|
         || line.lineIndex in linesByIndex || !IsCanonicalUuid(line.id) || line.id in lineIds {
        FaultAt(intentId, lines, expected, i);
        return Err(Invalid);
      }
      if !Matches(line, expected[line.lineIndex]) {
        FaultAt(intentId, lines, expected, i);
        return Err(Mismatch);
      }
      IndexTableStep(lines, i, linesByIndex);
      IdTableStep(lines, i, lineIds);
      linesByIndex := linesByIndex[line.lineIndex := line];
      lineIds := lineIds + {line.id};
      i := i + 1;
    }
    assert lines[..i] == lines;
    return Ok(linesByIndex);
  }

  lemma NothingMaps(intentId: string, lines: seq<IntentLine>, expected: seq<ExpectedLine>)
    ensures Maps(intentId, lines[..0], expected) && IndexTable(lines, 0, map[]) && IdTable(lines, 0, {})
  {
  }

  lemma FaultAt(intentId: string, lines: seq<IntentLine>, expected: seq<ExpectedLine>, i: int)
    requires 0 <= i < |lines| && Maps(intentId, lines[..i], expected) && !Maps(intentId, lines[..i + 1], expected)
    ensures !Maps(intentId, lines, expected)
    ensures FirstFault(intentId, lines, expected, i,
                       if HasNewIdentity(intentId, lines, |expected|, i) then Mismatch else Invalid)
  {
    hide Maps, HasNewIdentity;
    WholeFails(intentId, lines, expected, i);
  }

  lemma WholeFails(intentId: string, lines: seq<IntentLine>, expected: seq<ExpectedLine>, i: int)
    requires 0 <= i < |lines|
    ensures Maps(intentId, lines, expected) ==> Maps(intentId, lines[..i + 1], expected)
  {
    hide IsCanonicalUuid, Matches;
  }

  lemma IndicesInRange(intentId: string, lines: seq<IntentLine>, expected: seq<ExpectedLine>)
    requires Maps(intentId, lines, expected)
    ensures forall i :: 0 <= i < |lines| ==> 0 <= lines[i].lineIndex < |expected|
  {
    hide IsCanonicalUuid, Matches;
  }

  /** The lines at 0, 1, …, n-1; the source's error for a missing one is kept. */
  method InIndexOrder(linesByIndex: map<int, IntentLine>, n: nat) returns (r: Result<seq<IntentLine>, MappingError>)
    ensures r.Ok? <==> forall k :: 0 <= k < n ==> k in linesByIndex
    ensures r.Ok? ==> |r.value| == n && forall k :: 0 <= k < n ==> r.value[k] == linesByIndex[k]
    ensures r.Err? ==> r.error == Incomplete
  {
    var ordered := [];
    var k := 0;
    while k < n
      invariant 0 <= k <= n && |ordered| == k
      invariant forall j :: 0 <= j < k ==> j in linesByIndex && ordered[j] == linesByIndex[j]
    {
      if k !in linesByIndex {
        return Err(Incomplete);
      }
      ordered := ordered + [linesByIndex[k]];
      k := k + 1;
    }
    return Ok(ordered);
  }

  /** Succeeds exactly on a mapping, and then returns the lines in request order. With as many lines as
      expected, no index can be missing: the only incompleteness is a wrong number of lines. */
  method RequireClassCheckoutIntentLineMapping(intentId: string, lines: seq<IntentLine>, expected: seq<ExpectedLine>)
    returns (r: Result<seq<IntentLine>, MappingError>)
    ensures r.Ok? <==> |lines| == |expected| && Maps(intentId, lines, expected)
    ensures r.Ok? ==> Restores(lines, r.value)
    ensures r == Err(Incomplete) <==> |lines| != |expected|
    ensures r.Err? && |lines| == |expected| ==> exists i :: FirstFault(intentId, lines, expected, i, r.error)
  {
    hide Maps, IndexTable, FirstFault;
    if |lines| != |expected| {
      return Err(Incomplete);
    }
    var indexed := IndexLines(intentId, lines, expected);
    if indexed.Err? {
      return Err(indexed.error);
    }
    IndicesInRange(intentId, lines, expected);
    IndexTableDone(lines, indexed.value, |lines|);
    AllIndicesPresent(indexed.value.Keys, |lines|);
    r := InIndexOrder(indexed.value, |lines|);
  }

  // ---------------------------------------------------------------------------
  // Pigeonhole
  // ---------------------------------------------------------------------------

  function UpTo(n: nat): (s: set<int>)
    ensures |s| == n && forall k :: k in s <==> 0 <= k < n
  {
    if n == 0 then {} else UpTo(n - 1) + {n - 1}
  }

  lemma FullSubset<T>(a: set<T>, b: set<T>)
    requires a <= b && |a| >= |b|
    ensures a == b
  {
    if x :| x in b && x !in a {
      SubsetIsSmaller(a, b - {x});
    }
  }

  lemma {:induction false} SubsetIsSmaller<T>(a: set<T>, b: set<T>)
    requires a <= b
    ensures |a| <= |b|
    decreases |a|
  {
    if x :| x in a {
      SubsetIsSmaller(a - {x}, b - {x});
    }
  }

  /** n different numbers below n are all the numbers below n. */
  lemma AllIndicesPresent(keys: set<int>, n: nat)
    requires |keys| == n && forall k :: k in keys ==> 0 <= k < n
    ensures forall k :: 0 <= k < n ==> k in keys
  {
    FullSubset(keys, UpTo(n));
  }

  function Elements<T>(s: seq<T>): set<T> {
    set x | x in s
  }

  predicate Distinct<T(==)>(s: seq<T>) {
    forall i, j :: 0 <= i < j < |s| ==> s[i] != s[j]
  }

  lemma {:induction false} ElementCount<T>(s: seq<T>)
    ensures |Elements(s)| <= |s|
    ensures Distinct(s) ==> |Elements(s)| == |s|
    decreases |s|
  {
    if s == [] {
      assert Elements(s) == {};
    } else {
      var t, last := s[..|s| - 1], s[|s| - 1];
      assert Elements(s) == Elements(t) + {last};
      ElementCount(t);
      assert Distinct(s) ==> Distinct(t) && last !in t;
    }
  }

  /** As many different names as there are places use every place. */
  lemma DistinctCoversAll<T>(a: seq<T>, b: seq<T>)
    requires Distinct(a) && |a| == |b|
    requires forall x :: x in a ==> x in b
    ensures forall x :: x in b ==> x in a
  {
    ElementCount(a);
    ElementCount(b);
    FullSubset(Elements(a), Elements(b));
    assert forall x :: x in b ==> x in Elements(b);
  }

  // ---------------------------------------------------------------------------
  // Correlating a paid order
  // ---------------------------------------------------------------------------

  function IdentityAttributes(attributes: seq<Attribute>): seq<Attribute> {
    if attributes == [] then []
    else (if attributes[0].key == LINE_ID_KEY then [attributes[0]] else []) + IdentityAttributes(attributes[1..])
  }

  /** The one identity an order line carries; none when it carries none or several. */
  function IdentityOf(o: OrderLine): Option<string> {
    var own := IdentityAttributes(o.attributes);
    if |own| == 1 then Some(own[0].value) else None
  }

  predicate CanonicalIds(lines: seq<IntentLine>) {
    forall i :: 0 <= i < |lines| ==> IsCanonicalUuid(lines[i].id)
  }

  predicate WellNamed(lines: seq<IntentLine>) {
    CanonicalIds(lines) && IdsDistinct(lines)
  }

  predicate Names(lines: seq<IntentLine>, id: Option<string>) {
    id.Some? && exists i :: 0 <= i < |lines| && lines[i].id == id.value
  }

  predicate IdentitiesDistinct(order: seq<OrderLine>) {
    forall i, j :: 0 <= i < j < |order| ==> IdentityOf(order[i]) != IdentityOf(order[j])
  }

  /** As many order lines as intent lines, at least one; the intent's ids are canonical and different; each
      order line names one of them; and no two name the same. */
  predicate Correlates(lines: seq<IntentLine>, order: seq<OrderLine>) {
    && |lines| > 0 && |order| == |lines|
    && WellNamed(lines)
    && (forall k :: 0 <= k < |order| ==> Names(lines, IdentityOf(order[k])))
    && IdentitiesDistinct(order)
  }

  /** Every order line, in order, with the intent line it names. */
  predicate Paired(lines: seq<IntentLine>, order: seq<OrderLine>, pairs: seq<Pair>) {
    && |pairs| == |order|
    && forall k :: 0 <= k < |order| ==>
         && pairs[k].orderLine == order[k]
         && pairs[k].intentLine in lines
         && IdentityOf(order[k]) == Some(pairs[k].intentLine.id)
  }

  /** The table of the first `i` lines by id. */
  predicate LineTable(lines: seq<IntentLine>, i: nat, m: map<string, IntentLine>)
    requires i <= |lines|
  {
    && |m| == i
    && IdTable(lines, i, m.Keys)
    && forall id :: id in m ==> m[id] in lines && m[id].id == id
  }

  lemma LineTableStep(lines: seq<IntentLine>, i: nat, m: map<string, IntentLine>)
    requires i < |lines| && LineTable(lines, i, m) && lines[i].id !in m
    ensures LineTable(lines, i + 1, m[lines[i].id := lines[i]])
  {
    hide IdTable;
    IdTableStep(lines, i, m.Keys);
    assert m[lines[i].id := lines[i]].Keys == m.Keys + {lines[i].id};
  }

  lemma WellNamedStep(lines: seq<IntentLine>, i: nat, m: map<string, IntentLine>)
    requires i < |lines| && WellNamed(lines[..i]) && LineTable(lines, i, m)
    ensures WellNamed(lines[..i + 1]) <==> IsCanonicalUuid(lines[i].id) && lines[i].id !in m
    ensures WellNamed(lines) ==> WellNamed(lines[..i + 1])
  {
    hide IsCanonicalUuid, LineTable;
    IsNewId(lines, i, m);
    var a, b := lines[..i], lines[..i + 1];
    assert b[i] == lines[i];
    assert forall j :: 0 <= j < i ==> b[j] == a[j] == lines[j];
    assert WellNamed(b) ==> forall j :: 0 <= j < i ==> b[j].id != b[i].id;
  }

  lemma IsNewId(lines: seq<IntentLine>, i: nat, m: map<string, IntentLine>)
    requires i < |lines| && LineTable(lines, i, m)
    ensures lines[i].id !in m <==> forall j :: 0 <= j < i ==> lines[j].id != lines[i].id
  {
    assert lines[i].id in m <==> lines[i].id in m.Keys;
  }

  lemma LineTableDone(lines: seq<IntentLine>, m: map<string, IntentLine>)
    requires LineTable(lines, |lines|, m)
    ensures forall id :: id in m <==> Names(lines, Some(id))
  {
    assert forall id :: Names(lines, Some(id)) ==> id in m.Keys;
    assert forall id :: id in m ==> id in m.Keys;
  }

  method IndexIds(lines: seq<IntentLine>) returns (r: Option<map<string, IntentLine>>)
    ensures r.Some? <==> WellNamed(lines)
    ensures r.Some? ==> LineTable(lines, |lines|, r.value)
  {
    hide IsCanonicalUuid, WellNamed, LineTable;
    NothingNamed(lines);
    var byId: map<string, IntentLine> := map[];
    var i := 0;
    while i < |lines|
      invariant 0 <= i <= |lines|
      invariant WellNamed(lines[..i]) && LineTable(lines, i, byId)
    {
      WellNamedStep(lines, i, byId);
      if !IsCanonicalUuid(lines[i].id) || lines[i].id in byId {
        return None;
      }
      LineTableStep(lines, i, byId);
      byId := byId[lines[i].id := lines[i]];
      i := i + 1;
    }
    assert lines[..i] == lines;
    return Some(byId);
  }

  lemma NothingNamed(lines: seq<IntentLine>)
    ensures WellNamed(lines[..0]) && LineTable(lines, 0, map[])
  {
  }

  /** After `k` order lines: they name lines, no two the same, and `used` holds what they name. */
  predicate Progress(lines: seq<IntentLine>, order: seq<OrderLine>, k: nat, used: set<string>, pairs: seq<Pair>)
    requires k <= |order|
  {
    && |used| == k
    && (forall j :: 0 <= j < k ==> Names(lines, IdentityOf(order[j])) && IdentityOf(order[j]).value in used)
    && IdentitiesDistinct(order[..k])
    && (forall id :: id in used ==> exists j :: 0 <= j < k && IdentityOf(order[j]) == Some(id))
    && Paired(lines, order[..k], pairs)
  }

  lemma ProgressStep(lines: seq<IntentLine>, order: seq<OrderLine>, k: nat, used: set<string>, pairs: seq<Pair>,
                     line: IntentLine)
    requires k < |order| && Progress(lines, order, k, used, pairs)
    requires line in lines && IdentityOf(order[k]) == Some(line.id) && line.id !in used
    ensures Progress(lines, order, k + 1, used + {line.id}, pairs + [Pair(line, order[k])])
  {
    hide IdentityOf, IdentitiesDistinct, Paired;
    forall id | id in used + {line.id} ensures exists j :: 0 <= j < k + 1 && IdentityOf(order[j]) == Some(id) {
      assert id in used || id == line.id;
    }
    assert IdentitiesDistinct(order[..k + 1]) by { DistinctStep(lines, order, k, used, pairs); }
    assert order[..k + 1] == order[..k] + [order[k]];
    PairedStep(lines, order[..k], pairs, line, order[k]);
  }

  lemma DistinctStep(lines: seq<IntentLine>, order: seq<OrderLine>, k: nat, used: set<string>, pairs: seq<Pair>)
    requires k < |order| && Progress(lines, order, k, used, pairs)
    requires IdentityOf(order[k]).Some? && IdentityOf(order[k]).value !in used
    ensures IdentitiesDistinct(order[..k + 1])
  {
    hide IdentityOf, Paired;
    var a, b := order[..k], order[..k + 1];
    forall i, j | 0 <= i < j < |b| ensures IdentityOf(b[i]) != IdentityOf(b[j]) {
      if j < k {
        assert a[i] == b[i] && a[j] == b[j];
      }
    }
  }

  lemma PairedStep(lines: seq<IntentLine>, order: seq<OrderLine>, pairs: seq<Pair>, line: IntentLine, o: OrderLine)
    requires Paired(lines, order, pairs) && line in lines && IdentityOf(o) == Some(line.id)
    ensures Paired(lines, order + [o], pairs + [Pair(line, o)])
  {
    hide IdentityOf;
  }

  /** An order line that names nothing, or something already named, stands in the way of correlating. */
  lemma ProgressStops(lines: seq<IntentLine>, order: seq<OrderLine>, k: nat, used: set<string>, pairs: seq<Pair>)
    requires k < |order| && Progress(lines, order, k, used, pairs)
    requires !Names(lines, IdentityOf(order[k])) || (IdentityOf(order[k]).Some? && IdentityOf(order[k]).value in used)
    ensures !Correlates(lines, order)
  {
    hide IdentityOf, Paired, WellNamed, Names;
    NamesSome(lines, IdentityOf(order[k]));
    if Names(lines, IdentityOf(order[k])) {
      var j :| 0 <= j < k && IdentityOf(order[j]) == Some(IdentityOf(order[k]).value);
      assert IdentityOf(order[j]) == IdentityOf(order[k]);
    }
  }

  lemma NamesSome(lines: seq<IntentLine>, id: Option<string>)
    ensures Names(lines, id) ==> id.Some?
  {
  }

  lemma ProgressDone(lines: seq<IntentLine>, order: seq<OrderLine>, used: set<string>, pairs: seq<Pair>)
    requires |lines| > 0 && |order| == |lines| && WellNamed(lines) && Progress(lines, order, |order|, used, pairs)
    ensures Correlates(lines, order) && Paired(lines, order, pairs) && |used| == |order|
  {
    hide IdentityOf, Paired, WellNamed, Names, IdentitiesDistinct;
    assert order[..|order|] == order;
  }

  /** Succeeds exactly when the order correlates; the comparison of sizes at the end is never the reason for
      a refusal, because as many different used ids as there are lines use them all. */
  method CorrelateClassOrderLines(lines: seq<IntentLine>, order: seq<OrderLine>) returns (r: Option<seq<Pair>>)
    ensures r.Some? <==> Correlates(lines, order)
    ensures r.Some? ==> Paired(lines, order, r.value)
  {
    hide IsCanonicalUuid, WellNamed, Names, Progress, IdentityOf, IdentitiesDistinct, Paired, IdTable;
    if |lines| == 0 || |order| != |lines| {
      return None;
    }
    var byId := IndexIds(lines);
    if byId.None? {
      return None;
    }
    LineTableDone(lines, byId.value);
    NothingPaired(lines, order);
    var pairs: seq<Pair>, used: set<string> := [], {};
    var k := 0;
    while k < |order|
      invariant 0 <= k <= |order| && Progress(lines, order, k, used, pairs)
    {
      var id := IdentityOf(order[k]);
      NamedIsCanonical(lines, id);
      if id.None? || !IsCanonicalUuid(id.value) || id.value !in byId.value || id.value in used {
        ProgressStops(lines, order, k, used, pairs);
        return None;
      }
      ProgressStep(lines, order, k, used, pairs, byId.value[id.value]);
      used := used + {id.value};
      pairs := pairs + [Pair(byId.value[id.value], order[k])];
      k := k + 1;
    }
    ProgressDone(lines, order, used, pairs);
    r := if |used| == |byId.value| then Some(pairs) else None;
  }

  lemma NothingPaired(lines: seq<IntentLine>, order: seq<OrderLine>)
    ensures Progress(lines, order, 0, {}, [])
  {
  }

  lemma NamedIsCanonical(lines: seq<IntentLine>, id: Option<string>)
    requires WellNamed(lines)
    ensures Names(lines, id) ==> id.Some? && IsCanonicalUuid(id.value)
  {
    hide IsCanonicalUuid;
  }

  /** Every intent line is named by some order line. */
  lemma NamedAt(lines: seq<IntentLine>, order: seq<OrderLine>, i: nat) returns (k: nat)
    requires Correlates(lines, order) && i < |lines|
    ensures k < |order| && IdentityOf(order[k]) == Some(lines[i].id)
  {
    hide IdentityOf, IsCanonicalUuid;
    var named := seq(|order|, k requires 0 <= k < |order| => IdentityOf(order[k]));
    var ids := seq(|lines|, i requires 0 <= i < |lines| => Some(lines[i].id));
    forall x | x in named ensures x in ids {
      var k :| 0 <= k < |named| && named[k] == x;
      assert Names(lines, IdentityOf(order[k]));
      var i :| 0 <= i < |lines| && lines[i].id == x.value;
      assert ids[i] == x;
    }
    DistinctCoversAll(named, ids);
    assert ids[i] in named;
    k :| 0 <= k < |named| && named[k] == ids[i];
  }

  ghost predicate NamedOn(order: seq<OrderLine>, id: string) {
    exists k :: 0 <= k < |order| && IdentityOf(order[k]) == Some(id)
  }

  /** A correlated order is a bijection: every intent line is named by exactly one order line. */
  lemma CorrelationIsOneToOne(lines: seq<IntentLine>, order: seq<OrderLine>)
    requires Correlates(lines, order)
    ensures forall i :: 0 <= i < |lines| ==> NamedOn(order, lines[i].id)
    ensures forall j, k :: 0 <= j < |order| && 0 <= k < |order| && IdentityOf(order[j]) == IdentityOf(order[k]) ==>
              j == k
  {
    hide WellNamed, Names, IdentityAttributes;
    forall i | 0 <= i < |lines| ensures NamedOn(order, lines[i].id) {
      var k := NamedAt(lines, order, i);
    }
  }

  // ---------------------------------------------------------------------------
  // Round trip
  // ---------------------------------------------------------------------------

  /** `b` is `a` in another order: position k of `b` holds element p[k] of `a`. */
  predicate Rearranged<T(==)>(a: seq<T>, b: seq<T>, p: seq<nat>) {
    && |a| == |b| == |p| && Distinct(p)
    && forall k :: 0 <= k < |p| ==> p[k] < |a| && b[k] == a[p[k]]
  }

  predicate DrawnIds(ids: seq<string>) {
    Distinct(ids) && forall k :: 0 <= k < |ids| ==> IsCanonicalUuid(ids[k])
  }

  /** A paid line of a cart line: same variant and quantity, and the same identity attributes among
      whatever other attributes the storefront adds. */
  predicate PaidFrom(o: OrderLine, c: CartLine) {
    && o.variantGid == c.variantGid && o.quantity == c.quantity
    && IdentityAttributes(o.attributes) == IdentityAttributes(c.attributes)
  }

  predicate PaidOrder(order: seq<OrderLine>, cart: seq<CartLine>, q: seq<nat>) {
    && |order| == |cart| == |q| && Distinct(q)
    && forall k :: 0 <= k < |q| ==> q[k] < |cart| && PaidFrom(order[k], cart[q[k]])
  }

  lemma BuiltLines(intent: Intent, expected: seq<ExpectedLine>, drawn: seq<string>)
    requires |expected| > 0 && |drawn| == |expected|
    ensures |ClassLineInputs(expected)| == |expected|
    ensures
      var built := BuildIntentLineRecords(intent, ClassLineInputs(expected), drawn);
      && |built| == |expected|
      && forall k :: 0 <= k < |expected| ==>
           && built[k].id == drawn[k] && built[k].lineIndex == k
           && built[k].intentId == intent.id && Matches(built[k], expected[k])
  {
  }

  /** Lines as built satisfy the mapping in whatever order storage returns them. */
  lemma StoredLinesMap(intent: Intent, expected: seq<ExpectedLine>, drawn: seq<string>,
                       stored: seq<IntentLine>, p: seq<nat>)
    requires |expected| > 0 && |drawn| == |expected| && DrawnIds(drawn)
    requires Rearranged(BuildIntentLineRecords(intent, ClassLineInputs(expected), drawn), stored, p)
    ensures |stored| == |expected| && Maps(intent.id, stored, expected)
  {
    hide IsCanonicalUuid, Matches, BuildIntentLineRecords, ClassLineInputs;
    BuiltLines(intent, expected, drawn);
    var built := BuildIntentLineRecords(intent, ClassLineInputs(expected), drawn);
    forall i | 0 <= i < |stored|
      ensures stored[i] == built[p[i]] && stored[i].lineIndex == p[i] && stored[i].id == drawn[p[i]]
      ensures Belongs(stored[i], intent.id, |expected|) && Matches(stored[i], expected[stored[i].lineIndex])
    {
    }
    forall i, j | 0 <= i < j < |stored|
      ensures stored[i].lineIndex != stored[j].lineIndex && stored[i].id != stored[j].id
    {
      assert p[i] != p[j];
      assert drawn[p[i]] != drawn[p[j]];
    }
  }

  /** The mapping check undoes storage's order: what it returns are the lines as they were built. */
  lemma MappingUndoesStorageOrder(intent: Intent, expected: seq<ExpectedLine>, drawn: seq<string>,
                                  stored: seq<IntentLine>, p: seq<nat>, restored: seq<IntentLine>)
    requires |expected| > 0 && |drawn| == |expected| && DrawnIds(drawn)
    requires Rearranged(BuildIntentLineRecords(intent, ClassLineInputs(expected), drawn), stored, p)
    requires Restores(stored, restored)
    ensures restored == BuildIntentLineRecords(intent, ClassLineInputs(expected), drawn)
  {
    hide IsCanonicalUuid, BuildIntentLineRecords, ClassLineInputs, DrawnIds;
    BuiltLines(intent, expected, drawn);
    var built := BuildIntentLineRecords(intent, ClassLineInputs(expected), drawn);
    var all := seq(|p|, k => k);
    assert forall k :: 0 <= k < |p| ==> all[k] == k;
    forall x | x in p ensures x in all {
      assert all[x] == x;
    }
    DistinctCoversAll(p, all);
    forall k | 0 <= k < |built| ensures restored[k] == built[k] {
      assert all[k] in p;
      var i :| 0 <= i < |p| && p[i] == k;
      assert stored[i] == built[k] && stored[i].lineIndex == k;
    }
  }

  lemma CartIdentity(expected: seq<ExpectedLine>, lines: seq<IntentLine>, k: nat, o: OrderLine)
    requires |lines| == |expected| && k < |expected| && PaidFrom(o, CartLines(expected, lines)[k])
    ensures IdentityOf(o) == Some(lines[k].id)
    ensures o.variantGid == expected[k].variantGid && o.quantity == 1
  {
    var a := Attribute(LINE_ID_KEY, lines[k].id);
    assert IdentityAttributes([a]) == [a] by { assert [a][1..] == []; }
  }

  /** The stored lines, the lines in the order the check restores, and a paid order of the cart emitted from
      them, all for one intent. */
  predicate Journey(intent: Intent, expected: seq<ExpectedLine>, drawn: seq<string>,
                    stored: seq<IntentLine>, p: seq<nat>, restored: seq<IntentLine>,
                    order: seq<OrderLine>, q: seq<nat>) {
    && |expected| > 0 && |drawn| == |expected| && DrawnIds(drawn)
    && Rearranged(BuildIntentLineRecords(intent, ClassLineInputs(expected), drawn), stored, p)
    && Restores(stored, restored)
    && |restored| == |expected| && PaidOrder(order, CartLines(expected, restored), q)
  }

  lemma EmittedIdentity(intent: Intent, expected: seq<ExpectedLine>, drawn: seq<string>,
                        stored: seq<IntentLine>, p: seq<nat>, restored: seq<IntentLine>,
                        order: seq<OrderLine>, q: seq<nat>, k: nat)
    requires Journey(intent, expected, drawn, stored, p, restored, order, q) && k < |order|
    ensures |q| == |order| == |drawn| == |restored| && q[k] < |drawn| && restored[q[k]] in stored
    ensures restored[q[k]].id == drawn[q[k]]
    ensures IdentityOf(order[k]) == Some(restored[q[k]].id)
    ensures order[k].variantGid == restored[q[k]].variantGid
  {
    hide IsCanonicalUuid, BuildIntentLineRecords, ClassLineInputs, PaidFrom, IdentityOf, DrawnIds, Rearranged;
    MappingUndoesStorageOrder(intent, expected, drawn, stored, p, restored);
    StoredLinesMap(intent, expected, drawn, stored, p);
    BuiltLines(intent, expected, drawn);
    CartIdentity(expected, restored, q[k], order[k]);
    RestoredIsStored(stored, restored, expected, intent.id, q[k]);
  }

  /** Main result: lines built for an intent, stored in any order, restored, emitted as cart lines and
      returned on a paid order in any order, correlate; and each order line is paired with the very line that
      emitted its id, whose variant it carries. */
  lemma IdentityRoundTrip(intent: Intent, expected: seq<ExpectedLine>, drawn: seq<string>,
                          stored: seq<IntentLine>, p: seq<nat>, restored: seq<IntentLine>,
                          order: seq<OrderLine>, q: seq<nat>, pairs: seq<Pair>)
    requires Journey(intent, expected, drawn, stored, p, restored, order, q)
    ensures |stored| == |expected| && Maps(intent.id, stored, expected)
    ensures restored == BuildIntentLineRecords(intent, ClassLineInputs(expected), drawn)
    ensures Correlates(stored, order)
    ensures Paired(stored, order, pairs) ==> forall k :: 0 <= k < |order| ==>
              pairs[k].intentLine == restored[q[k]] && order[k].variantGid == pairs[k].intentLine.variantGid
  {
    JourneyMaps(intent, expected, drawn, stored, p, restored, order, q);
    JourneyCorrelates(intent, expected, drawn, stored, p, restored, order, q);
    if Paired(stored, order, pairs) {
      forall k | 0 <= k < |order|
        ensures pairs[k].intentLine == restored[q[k]] && order[k].variantGid == pairs[k].intentLine.variantGid
      {
        hide *;
        EmittedIdentity(intent, expected, drawn, stored, p, restored, order, q, k);
        PairedWithEmitter(stored, order, pairs, k, restored[q[k]], intent.id, expected);
      }
    }
  }

  lemma JourneyMaps(intent: Intent, expected: seq<ExpectedLine>, drawn: seq<string>,
                    stored: seq<IntentLine>, p: seq<nat>, restored: seq<IntentLine>,
                    order: seq<OrderLine>, q: seq<nat>)
    requires Journey(intent, expected, drawn, stored, p, restored, order, q)
    ensures |stored| == |expected| == |order| && Maps(intent.id, stored, expected)
    ensures restored == BuildIntentLineRecords(intent, ClassLineInputs(expected), drawn)
  {
    hide Maps, BuildIntentLineRecords, ClassLineInputs, DrawnIds, Rearranged, Restores, PaidFrom;
    StoredLinesMap(intent, expected, drawn, stored, p);
    MappingUndoesStorageOrder(intent, expected, drawn, stored, p, restored);
  }

  lemma JourneyCorrelates(intent: Intent, expected: seq<ExpectedLine>, drawn: seq<string>,
                          stored: seq<IntentLine>, p: seq<nat>, restored: seq<IntentLine>,
                          order: seq<OrderLine>, q: seq<nat>)
    requires Journey(intent, expected, drawn, stored, p, restored, order, q)
    ensures Correlates(stored, order)
  {
    hide IsCanonicalUuid, BuildIntentLineRecords, ClassLineInputs, PaidFrom, IdentityOf;
    hide Rearranged, Restores, CartLines, Matches;
    JourneyMaps(intent, expected, drawn, stored, p, restored, order, q);
    forall k | 0 <= k < |order|
      ensures k < |q| && q[k] < |drawn| && IdentityOf(order[k]) == Some(drawn[q[k]])
      ensures Names(stored, IdentityOf(order[k]))
    {
      EmittedIdentity(intent, expected, drawn, stored, p, restored, order, q, k);
    }
    forall i, j | 0 <= i < j < |order| ensures IdentityOf(order[i]) != IdentityOf(order[j]) {
      assert q[i] != q[j];
      assert drawn[q[i]] != drawn[q[j]];
    }
  }

  lemma PairedWithEmitter(stored: seq<IntentLine>, order: seq<OrderLine>, pairs: seq<Pair>, k: nat, line: IntentLine,
                          intentId: string, expected: seq<ExpectedLine>)
    requires Paired(stored, order, pairs) && k < |order| && line in stored && IdentityOf(order[k]) == Some(line.id)
    requires Maps(intentId, stored, expected)
    ensures k < |pairs| && pairs[k].intentLine == line
  {
    hide IdentityOf, Belongs, Matches;
    SameIdSameLine(stored, pairs[k].intentLine, line);
  }

  lemma SameIdSameLine(lines: seq<IntentLine>, a: IntentLine, b: IntentLine)
    requires IdsDistinct(lines) && a in lines && b in lines && a.id == b.id
    ensures a == b
  {
    var i :| 0 <= i < |lines| && lines[i] == a;
    var j :| 0 <= j < |lines| && lines[j] == b;
    assert i == j;
  }

  lemma RestoredIsStored(stored: seq<IntentLine>, restored: seq<IntentLine>, expected: seq<ExpectedLine>,
                         intentId: string, k: nat)
    requires Maps(intentId, stored, expected) && |stored| == |expected| && Restores(stored, restored)
    requires k < |restored|
    ensures restored[k] in stored
  {
    hide Matches, IsCanonicalUuid;
    var indices := seq(|stored|, i requires 0 <= i < |stored| => stored[i].lineIndex);
    var all := seq(|stored|, i => i);
    forall x | x in indices ensures x in all {
      assert all[x] == x;
    }
    DistinctCoversAll(indices, all);
    assert all[k] in indices;
    var i :| 0 <= i < |indices| && indices[i] == k;
    assert restored[k] == stored[i];
  }
}
