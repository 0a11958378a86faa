/** The form of line ids, attributes and records, written out: which text is a canonical id, which attribute is an
    order line's identity, what the records of an intent hold, and when stored lines map to the validated ones. */
module LineRecords {
  import opened LineIdentity
  import opened Wrappers

  // ---------------------------------------------------------------------------
  // Canonical ids
  // ---------------------------------------------------------------------------

  ghost predicate HexDigit(c: char) {
    c in ['0', '1', '2', '3', '4', '5', '6', '7', '8', '9', 'a', 'b', 'c', 'd', 'e', 'f']
  }

  ghost predicate HexDigits(s: string, n: nat) {
    && |s| == n
    && forall c :: c in s ==> HexDigit(c)
  }

  /** Five groups of 8, 4, 4, 4 and 12 lower-case hexadecimal digits, joined by hyphens; the third starts with a
      version from 1 to 5 and the fourth with a variant 8, 9, a or b. */
  ghost predicate IsGrouped(s: string, a: string, b: string, c: string, d: string, e: string) {
    && s == a + "-" + b + "-" + c + "-" + d + "-" + e
    && HexDigits(a, 8) && HexDigits(b, 4) && HexDigits(c, 4) && HexDigits(d, 4) && HexDigits(e, 12)
    && (c[0] == '1' || c[0] == '2' || c[0] == '3' || c[0] == '4' || c[0] == '5')
    && (d[0] == '8' || d[0] == '9' || d[0] == 'a' || d[0] == 'b')
  }

  lemma HexExactly(c: char)
    ensures IsHex(c) <==> HexDigit(c)
  {
    var all := ['0', '1', '2', '3', '4', '5', '6', '7', '8', '9', 'a', 'b', 'c', 'd', 'e', 'f'];
    if IsHex(c) {
      var i := if c <= '9' then c as int - '0' as int else c as int - 'a' as int + 10;
      assert all[i] == c;
    }
  }

  lemma HexGroup(s: string, from: nat, to: nat)
    requires from <= to <= |s|
    ensures HexDigits(s[from..to], to - from) <==> forall i :: from <= i < to ==> IsHex(s[i])
  {
    var g := s[from..to];
    forall c ensures IsHex(c) <==> HexDigit(c) {
      HexExactly(c);
    }
    hide IsHex, HexDigit;
    if HexDigits(g, to - from) {
      forall i | from <= i < to ensures IsHex(s[i]) {
        assert s[i] == g[i - from] && g[i - from] in g;
      }
    }
    if forall i :: from <= i < to ==> IsHex(s[i]) {
      forall c | c in g ensures IsHex(c) {
        var i :| 0 <= i < |g| && g[i] == c;
        assert s[from + i] == c;
      }
    }
  }

  lemma Ungrouped(s: string, a: string, b: string, c: string, d: string, e: string)
    requires s == a + "-" + b + "-" + c + "-" + d + "-" + e
    requires |a| == 8 && |b| == 4 && |c| == 4 && |d| == 4 && |e| == 12
    ensures |s| == 36 && s[8] == s[13] == s[18] == s[23] == '-'
    ensures s[..8] == a && s[9..13] == b && s[14..18] == c && s[19..23] == d && s[24..] == e
  {
  }

  lemma Grouped(s: string)
    requires |s| == 36 && s[8] == s[13] == s[18] == s[23] == '-'
    ensures s == s[..8] + "-" + s[9..13] + "-" + s[14..18] + "-" + s[19..23] + "-" + s[24..]
  {
    assert s[..9] == s[..8] + "-";
    assert s[..13] == s[..9] + s[9..13];
    assert s[..14] == s[..13] + "-";
    assert s[..18] == s[..14] + s[14..18];
    assert s[..19] == s[..18] + "-";
    assert s[..23] == s[..19] + s[19..23];
    assert s[..24] == s[..23] + "-";
    assert s == s[..24] + s[24..];
  }

  lemma HexGroups(s: string)
    requires |s| == 36
    ensures HexDigits(s[..8], 8) && HexDigits(s[9..13], 4) && HexDigits(s[14..18], 4) && HexDigits(s[19..23], 4)
            && HexDigits(s[24..], 12)
       <==> forall i :: 0 <= i < 36 && i != 8 && i != 13 && i != 18 && i != 23 ==> IsHex(s[i])
  {
    HexGroup(s, 0, 8);
    HexGroup(s, 9, 13);
    HexGroup(s, 14, 18);
    HexGroup(s, 19, 23);
    HexGroup(s, 24, 36);
    hide HexDigits, HexDigit, IsHex;
    assert s[0..8] == s[..8] && s[24..36] == s[24..];
  }

  /** The ids that are accepted are those of that form. */
  lemma CanonicalExactly(s: string)
    ensures IsCanonicalUuid(s) <==> exists a, b, c, d, e :: IsGrouped(s, a, b, c, d, e)
  {
    hide HexDigits, HexDigit, IsHex;
    if IsCanonicalUuid(s) {
      Grouped(s);
      HexGroups(s);
      assert s[14..18][0] == s[14] && s[19..23][0] == s[19];
      VersionDigit(s[14]);
      assert IsGrouped(s, s[..8], s[9..13], s[14..18], s[19..23], s[24..]);
    }
    if a, b, c, d, e :| IsGrouped(s, a, b, c, d, e) {
      GroupSizes(a, b, c, d, e);
      Ungrouped(s, a, b, c, d, e);
      HexGroups(s);
      assert s[14] == c[0] && s[19] == d[0];
    }
  }

  lemma VersionDigit(c: char)
    requires '1' <= c <= '5'
    ensures c == '1' || c == '2' || c == '3' || c == '4' || c == '5'
  {
  }

  lemma GroupSizes(a: string, b: string, c: string, d: string, e: string)
    requires HexDigits(a, 8) && HexDigits(b, 4) && HexDigits(c, 4) && HexDigits(d, 4) && HexDigits(e, 12)
    ensures |a| == 8 && |b| == 4 && |c| == 4 && |d| == 4 && |e| == 12
  {
  }

  // ---------------------------------------------------------------------------
  // The identity of an order line
  // ---------------------------------------------------------------------------

  /** Attribute i is the only one under the line-id key, and carries the id. */
  ghost predicate OnlyIdentityAt(attributes: seq<Attribute>, i: nat, id: string) {
    && i < |attributes| && attributes[i] == Attribute("festival_checkout_intent_line_id", id)
    && forall j :: 0 <= j < |attributes| && j != i ==> attributes[j].key != "festival_checkout_intent_line_id"
  }

  lemma {:induction false} NoneOfKey(attributes: seq<Attribute>)
    ensures IdentityAttributes(attributes) == [] <==>
            forall i :: 0 <= i < |attributes| ==> attributes[i].key != "festival_checkout_intent_line_id"
    decreases |attributes|
  {
    if attributes != [] {
      NoneOfKey(attributes[1..]);
      assert forall i :: 0 < i < |attributes| ==> attributes[i] == attributes[1..][i - 1];
      assert forall i :: 0 <= i < |attributes| - 1 ==> attributes[1..][i] == attributes[i + 1];
    }
  }

  lemma {:induction false} OneOfKey(attributes: seq<Attribute>, id: string)
    ensures (|IdentityAttributes(attributes)| == 1 && IdentityAttributes(attributes)[0].value == id) <==>
            exists i: nat :: OnlyIdentityAt(attributes, i, id)
    decreases |attributes|
  {
    if attributes != [] {
      var rest := attributes[1..];
      assert forall i :: 0 < i < |attributes| ==> attributes[i] == rest[i - 1];
      if attributes[0].key == LINE_ID_KEY {
        NoneOfKey(rest);
        FirstIsIdentity(attributes, id);
      } else {
        OneOfKey(rest, id);
        LaterIsIdentity(attributes, id);
        assert IdentityAttributes(attributes) == [] + IdentityAttributes(rest) == IdentityAttributes(rest);
      }
    }
  }

  lemma FirstIsIdentity(attributes: seq<Attribute>, id: string)
    requires attributes != [] && attributes[0].key == "festival_checkout_intent_line_id"
    ensures (exists i: nat :: OnlyIdentityAt(attributes, i, id)) <==>
            attributes[0].value == id
            && forall i :: 0 <= i < |attributes[1..]| ==> attributes[1..][i].key != "festival_checkout_intent_line_id"
  {
    var rest := attributes[1..];
    assert forall i :: 0 <= i < |rest| ==> rest[i] == attributes[i + 1];
    assert forall j :: 0 < j < |attributes| ==> attributes[j] == rest[j - 1];
    if i: nat :| OnlyIdentityAt(attributes, i, id) {
      assert i == 0;
    }
    if attributes[0].value == id
       && forall i :: 0 <= i < |rest| ==> rest[i].key != "festival_checkout_intent_line_id" {
      assert OnlyIdentityAt(attributes, 0, id);
    }
  }

  lemma LaterIsIdentity(attributes: seq<Attribute>, id: string)
    requires attributes != [] && attributes[0].key != "festival_checkout_intent_line_id"
    ensures (exists i: nat :: OnlyIdentityAt(attributes, i, id)) <==>
            exists i: nat :: OnlyIdentityAt(attributes[1..], i, id)
  {
    var rest := attributes[1..];
    assert forall j :: 0 <= j < |rest| ==> rest[j] == attributes[j + 1];
    assert forall j :: 0 < j < |attributes| ==> attributes[j] == rest[j - 1];
    if i: nat :| OnlyIdentityAt(attributes, i, id) {
      assert OnlyIdentityAt(rest, i - 1, id);
    }
    if i: nat :| OnlyIdentityAt(rest, i, id) {
      assert OnlyIdentityAt(attributes, i + 1, id);
    }
  }

  /** An order line's identity is the value of its only attribute under the line-id key; with none or several it
      has no identity. */
  lemma IdentityExactly(o: OrderLine, id: string)
    ensures IdentityOf(o) == Some(id) <==> exists i: nat :: OnlyIdentityAt(o.attributes, i, id)
  {
    OneOfKey(o.attributes, id);
  }

  // ---------------------------------------------------------------------------
  // Records
  // ---------------------------------------------------------------------------

  /** An intent without line inputs gets one record, from the intent itself, at index 0; with inputs each gets one,
      with the id, index and type it brings, or else the id drawn for it, its position and a class entry. */
  lemma RecordsBuilt(intent: Intent, inputs: seq<LineInput>, drawn: seq<string>)
    requires |drawn| == if inputs == [] then 1 else |inputs|
    ensures
      var built := BuildIntentLineRecords(intent, inputs, drawn);
      && |built| == |drawn|
      && (inputs == [] ==>
            built[0] == IntentLine(drawn[0], intent.id, 0, intent.intentType, intent.festivalClassId, intent.childId,
                                   intent.productGid, intent.variantGid, intent.amount, intent.currency))
      && forall k :: 0 <= k < |inputs| ==>
           var l, r := inputs[k], built[k];
           && r.id == (if l.id == None then drawn[k] else l.id.value)
           && r.lineIndex == (if l.lineIndex == None then k else l.lineIndex.value)
           && r.lineType == (if l.lineType == None then ClassEntry else l.lineType.value)
           && r.intentId == intent.id && r.festivalClassId == l.festivalClassId && r.childId == l.childId
           && r.productGid == l.productGid && r.variantGid == l.variantGid
           && r.amount == l.amount && r.currency == l.currency
  {
  }

  /** The line is the record of the validated line at its index, of this intent, under a canonical id. */
  ghost predicate IsRecordOf(line: IntentLine, intentId: string, expected: seq<ExpectedLine>) {
    && 0 <= line.lineIndex < |expected|
    && (exists a, b, c, d, e :: IsGrouped(line.id, a, b, c, d, e))
    && var x := expected[line.lineIndex];
       line == IntentLine(line.id, intentId, line.lineIndex, ClassEntry, Some(x.festivalClassId), Some(x.childId),
                          x.productGid, x.variantGid, x.amount, x.currency)
  }

  lemma RecordExactly(line: IntentLine, intentId: string, expected: seq<ExpectedLine>)
    ensures IsRecordOf(line, intentId, expected) <==>
            Belongs(line, intentId, |expected|) && Matches(line, expected[line.lineIndex])
  {
    CanonicalExactly(line.id);
    hide IsCanonicalUuid, IsGrouped;
  }

  /** Stored lines map exactly when each is the record of a validated line, no two of the same one, and no two
      share an id. */
  lemma MapsExactly(intentId: string, lines: seq<IntentLine>, expected: seq<ExpectedLine>)
    ensures Maps(intentId, lines, expected) <==>
              && (forall i :: 0 <= i < |lines| ==> IsRecordOf(lines[i], intentId, expected))
              && (forall i, j :: 0 <= i < j < |lines| ==>
                    lines[i].lineIndex != lines[j].lineIndex && lines[i].id != lines[j].id)
  {
    hide IsRecordOf, IsCanonicalUuid, Matches;
    forall i | 0 <= i < |lines|
      ensures IsRecordOf(lines[i], intentId, expected) <==>
              Belongs(lines[i], intentId, |expected|) && Matches(lines[i], expected[lines[i].lineIndex])
    {
      RecordExactly(lines[i], intentId, expected);
    }
  }
}
