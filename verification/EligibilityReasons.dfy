/** The verdict on one line, written out: which reason is given when several apply, what a prerequisite is and what
    meets it, how places are counted, and what a candidate marker is. */
module EligibilityReasons {
  import opened Eligibility
  import opened Wrappers

  // ---------------------------------------------------------------------------
  // What each check asks
  // ---------------------------------------------------------------------------

  /** The class is known, active, and of the festival and organization asked about. */
  ghost predicate InOffer(ctx: Context, id: Id) {
    && id in ctx.classes
    && ctx.classes[id].isActive && ctx.classes[id].org == ctx.org && ctx.classes[id].festival == ctx.festival
  }

  /** The child has an entitlement of the class that is confirmed or waitlisted. */
  ghost predicate HasSeat(ctx: Context, child: Id, festivalClass: Id) {
    exists e :: e in ctx.entitlements
      && e.child == child && e.festivalClass == festivalClass && (e.status == Confirmed || e.status == Waitlisted)
  }

  /** An earlier line asks for the same seat. */
  ghost predicate AskedBefore(ctx: Context, line: Line, index: nat)
    requires index <= |ctx.lines|
  {
    exists j :: 0 <= j < index && ctx.lines[j].child == line.child && ctx.lines[j].festivalClass == line.festivalClass
  }

  ghost predicate IsSpace(c: char) {
    c == ' ' || c == '\t' || c == '\n' || c == '\r'
  }

  /** `word` is `text` without the white space around it, and is not empty. */
  ghost predicate IsTrimmed(text: string, word: string) {
    && word != "" && !IsSpace(word[0]) && !IsSpace(word[|word| - 1])
    && exists a: string, b: string ::
         text == a + word + b && (forall c :: c in a ==> IsSpace(c)) && (forall c :: c in b ==> IsSpace(c))
  }

  /** The subtype of the class is known and names a prerequisite that is not blank. */
  ghost predicate Needs(ctx: Context, c: ClassConfig, required: string) {
    && c.subtype in ctx.subtypes && ctx.subtypes[c.subtype].requiredSubtype.Some?
    && IsTrimmed(ctx.subtypes[c.subtype].requiredSubtype.value, required)
  }

  /** The class has the required subtype and the division and ages of the one aimed at. */
  ghost predicate Prepares(ctx: Context, id: Id, target: ClassConfig, required: string) {
    && id in ctx.classes
    && ctx.classes[id].subtype == required && ctx.classes[id].division == target.division
    && ctx.classes[id].minimumAge == target.minimumAge && ctx.classes[id].maximumAge == target.maximumAge
  }

  /** A confirmed entitlement of the child here is in such a class. */
  ghost predicate PreparedBefore(ctx: Context, target: ClassConfig, required: string, child: Id) {
    exists e :: e in ctx.entitlements
      && e.org == ctx.org && e.festival == ctx.festival && e.child == child && e.status == Confirmed
      && Prepares(ctx, e.festivalClass, target, required)
  }

  /** Line j is another line, for the child, of such a class on offer. */
  ghost predicate PreparedByLine(ctx: Context, target: ClassConfig, required: string, child: Id, index: nat, j: nat) {
    && j < |ctx.lines| && j != index && ctx.lines[j].child == child
    && InOffer(ctx, ctx.lines[j].festivalClass) && Prepares(ctx, ctx.lines[j].festivalClass, target, required)
  }

  ghost predicate Prepared(ctx: Context, target: ClassConfig, child: Id, index: nat) {
    forall required :: Needs(ctx, target, required) ==>
      || PreparedBefore(ctx, target, required, child)
      || exists j: nat :: PreparedByLine(ctx, target, required, child, index, j)
  }

  ghost function TakenPlaces(ctx: Context, id: Id): set<nat> {
    set i: nat | i < |ctx.entitlements|
      && ctx.entitlements[i].festivalClass == id && ctx.entitlements[i].status == Confirmed
  }

  ghost function LinesAhead(ctx: Context, id: Id, index: nat): set<nat>
    requires index <= |ctx.lines|
  {
    set j: nat | j < index && ctx.lines[j].festivalClass == id
  }

  /** The class has a capacity, and it is not positive or reached by the confirmed entitlements and the lines of
      the class ahead. */
  ghost predicate NoRoom(ctx: Context, c: ClassConfig, index: nat)
    requires index <= |ctx.lines|
  {
    && c.capacity.Some?
    && (c.capacity.value <= 0 || |TakenPlaces(ctx, c.id)| + |LinesAhead(ctx, c.id, index)| >= c.capacity.value)
  }

  // ---------------------------------------------------------------------------
  // They are what the check computes
  // ---------------------------------------------------------------------------

  lemma SpacesExactly(c: char)
    ensures c in WHITESPACE <==> IsSpace(c)
  {
    var w := WHITESPACE;
    assert |w| == 4 && w[0] == ' ' && w[1] == '\t' && w[2] == '\n' && w[3] == '\r';
  }

  lemma {:induction false} TrimStartIs(s: string) returns (a: string)
    ensures s == a + TrimStart(s) && forall c :: c in a ==> IsSpace(c)
    ensures TrimStart(s) != "" ==> !IsSpace(TrimStart(s)[0])
    decreases |s|
  {
    if s != "" && s[0] in WHITESPACE {
      SpacesExactly(s[0]);
      var rest := TrimStartIs(s[1..]);
      a := [s[0]] + rest;
      assert s == [s[0]] + s[1..];
    } else {
      a := "";
      if s != "" {
        SpacesExactly(s[0]);
      }
    }
  }

  lemma {:induction false} TrimEndIs(s: string) returns (b: string)
    ensures s == TrimEnd(s) + b && forall c :: c in b ==> IsSpace(c)
    ensures TrimEnd(s) != "" ==> !IsSpace(TrimEnd(s)[|TrimEnd(s)| - 1])
    decreases |s|
  {
    if s != "" && s[|s| - 1] in WHITESPACE {
      SpacesExactly(s[|s| - 1]);
      var rest := TrimEndIs(s[..|s| - 1]);
      b := rest + [s[|s| - 1]];
      assert s == s[..|s| - 1] + [s[|s| - 1]];
    } else {
      b := "";
      if s != "" {
        SpacesExactly(s[|s| - 1]);
      }
    }
  }

  lemma {:induction false} StartTrims(a: string, word: string)
    requires (forall c :: c in a ==> IsSpace(c)) && word != "" && !IsSpace(word[0])
    ensures TrimStart(a + word) == word
    decreases |a|
  {
    if a == "" {
      SpacesExactly(word[0]);
      assert a + word == word;
    } else {
      SpacesExactly(a[0]);
      assert (a + word)[1..] == a[1..] + word;
      StartTrims(a[1..], word);
    }
  }

  lemma {:induction false} EndTrims(word: string, b: string)
    requires (forall c :: c in b ==> IsSpace(c)) && word != "" && !IsSpace(word[|word| - 1])
    ensures TrimEnd(word + b) == word
    decreases |b|
  {
    if b == "" {
      SpacesExactly(word[|word| - 1]);
      assert word + b == word;
    } else {
      var n := |b| - 1;
      SpacesExactly(b[n]);
      assert (word + b)[..|word + b| - 1] == word + b[..n];
      EndTrims(word, b[..n]);
    }
  }

  lemma TrimmedExactly(text: string, word: string)
    ensures IsTrimmed(text, word) <==> word != "" && TrimEnd(TrimStart(text)) == word
  {
    if IsTrimmed(text, word) {
      var a: string, b: string :| text == a + word + b
        && (forall c :: c in a ==> IsSpace(c)) && (forall c :: c in b ==> IsSpace(c));
      assert text == a + (word + b) && (word + b)[0] == word[0];
      StartTrims(a, word + b);
      EndTrims(word, b);
    }
    if word != "" && TrimEnd(TrimStart(text)) == word {
      var a := TrimStartIs(text);
      var b := TrimEndIs(TrimStart(text));
      assert TrimStart(text)[0] == word[0];
      assert text == a + word + b;
    }
  }

  lemma NeedsExactly(ctx: Context, c: ClassConfig, required: string)
    ensures Needs(ctx, c, required) <==> Required(ctx, c) == Some(required)
  {
    if c.subtype in ctx.subtypes && ctx.subtypes[c.subtype].requiredSubtype.Some? {
      TrimmedExactly(ctx.subtypes[c.subtype].requiredSubtype.value, required);
    }
    hide IsTrimmed, TrimStart, TrimEnd;
  }

  lemma PreparedBeforeExactly(ctx: Context, target: ClassConfig, required: string, child: Id)
    ensures PreparedBefore(ctx, target, required, child) <==> EntitlementSatisfies(ctx, target, required, child)
  {
    if PreparedBefore(ctx, target, required, child) {
      var e :| e in ctx.entitlements
        && e.org == ctx.org && e.festival == ctx.festival && e.child == child && e.status == Confirmed
        && Prepares(ctx, e.festivalClass, target, required);
      var i :| 0 <= i < |ctx.entitlements| && ctx.entitlements[i] == e;
    }
    if EntitlementSatisfies(ctx, target, required, child) {
      var i :| 0 <= i < |ctx.entitlements| &&
        var e := ctx.entitlements[i];
        && e.org == ctx.org && e.festival == ctx.festival && e.child == child && e.status.Confirmed?
        && ClassOf(ctx, e.festivalClass).Some?
        && Satisfies(ClassOf(ctx, e.festivalClass).value, target, required);
      assert Prepares(ctx, ctx.entitlements[i].festivalClass, target, required);
      assert ctx.entitlements[i] in ctx.entitlements;
    }
  }

  lemma PreparedByLineExactly(ctx: Context, target: ClassConfig, required: string, child: Id, index: nat)
    ensures (exists j: nat :: PreparedByLine(ctx, target, required, child, index, j)) <==>
            OtherLineSatisfies(ctx, target, required, child, index)
  {
    forall j: nat ensures PreparedByLine(ctx, target, required, child, index, j) <==>
                          j < |ctx.lines| && j != index && LineSatisfies(ctx, ctx.lines[j], target, required, child)
    {
    }
    hide PreparedByLine, LineSatisfies;
  }

  lemma PreparedExactly(ctx: Context, target: ClassConfig, child: Id, index: nat)
    ensures Prepared(ctx, target, child, index) <==> PrerequisiteMet(ctx, target, child, index)
  {
    hide Needs, PreparedBefore, PreparedByLine, Required, EntitlementSatisfies, OtherLineSatisfies;
    forall required ensures Needs(ctx, target, required) <==> Required(ctx, target) == Some(required) {
      NeedsExactly(ctx, target, required);
    }
    if Required(ctx, target).Some? {
      var required := Required(ctx, target).value;
      PreparedBeforeExactly(ctx, target, required, child);
      PreparedByLineExactly(ctx, target, required, child, index);
      assert Needs(ctx, target, required);
    }
  }

  lemma HasSeatExactly(ctx: Context, child: Id, festivalClass: Id)
    ensures HasSeat(ctx, child, festivalClass) <==> Registered(ctx, child, festivalClass)
  {
    if HasSeat(ctx, child, festivalClass) {
      var e :| e in ctx.entitlements
        && e.child == child && e.festivalClass == festivalClass && (e.status == Confirmed || e.status == Waitlisted);
      var i :| 0 <= i < |ctx.entitlements| && ctx.entitlements[i] == e;
    }
    if Registered(ctx, child, festivalClass) {
      var i :| 0 <= i < |ctx.entitlements| &&
        var e := ctx.entitlements[i];
        e.child == child && e.festivalClass == festivalClass && !e.status.Cancelled? && !e.status.Revoked?;
      assert ctx.entitlements[i] in ctx.entitlements;
    }
  }

  ghost function TakenFrom(entitlements: seq<Entitlement>, id: Id, from: nat): set<nat> {
    set i: nat | from <= i < |entitlements|
      && entitlements[i].festivalClass == id && entitlements[i].status == Confirmed
  }

  lemma OneMore(few: set<nat>, more: set<nat>, n: nat, added: bool)
    requires n !in few && forall j :: j in more <==> j in few || (added && j == n)
    ensures |more| == |few| + if added then 1 else 0
  {
    assert more == if added then few + {n} else few;
  }

  lemma TakenStep(entitlements: seq<Entitlement>, id: Id, from: nat)
    requires from < |entitlements|
    ensures |TakenFrom(entitlements, id, from)| == |TakenFrom(entitlements, id, from + 1)|
              + if entitlements[from].festivalClass == id && entitlements[from].status == Confirmed then 1 else 0
  {
    OneMore(TakenFrom(entitlements, id, from + 1), TakenFrom(entitlements, id, from), from,
            entitlements[from].festivalClass == id && entitlements[from].status == Confirmed);
  }

  lemma PlacedStep(entitlements: seq<Entitlement>, id: Id, from: nat)
    requires from < |entitlements|
    ensures Placed(entitlements[from..], id) == Placed(entitlements[from + 1..], id)
              + if entitlements[from].festivalClass == id && entitlements[from].status == Confirmed then 1 else 0
  {
    assert entitlements[from..][1..] == entitlements[from + 1..];
  }

  lemma {:induction false} PlacesCounted(entitlements: seq<Entitlement>, id: Id, from: nat)
    requires from <= |entitlements|
    ensures Placed(entitlements[from..], id) == |TakenFrom(entitlements, id, from)|
    decreases |entitlements| - from
  {
    if from == |entitlements| {
      assert TakenFrom(entitlements, id, from) == {};
    } else {
      hide Placed, TakenFrom;
      PlacesCounted(entitlements, id, from + 1);
      TakenStep(entitlements, id, from);
      PlacedStep(entitlements, id, from);
    }
  }

  lemma AheadStep(ctx: Context, id: Id, n: nat)
    requires n < |ctx.lines|
    ensures |LinesAhead(ctx, id, n + 1)| == |LinesAhead(ctx, id, n)| + if ctx.lines[n].festivalClass == id then 1 else 0
  {
    OneMore(LinesAhead(ctx, id, n), LinesAhead(ctx, id, n + 1), n, ctx.lines[n].festivalClass == id);
  }

  lemma LinesOfStep(lines: seq<Line>, id: Id, n: nat)
    requires n < |lines|
    ensures Eligibility.LinesOf(lines[..n + 1], id)
         == Eligibility.LinesOf(lines[..n], id) + if lines[n].festivalClass == id then 1 else 0
  {
    assert lines[..n + 1][..n] == lines[..n];
  }

  lemma {:induction false} AheadCounted(ctx: Context, id: Id, index: nat)
    requires index <= |ctx.lines|
    ensures Eligibility.LinesOf(ctx.lines[..index], id) == |LinesAhead(ctx, id, index)|
    decreases index
  {
    if index == 0 {
      assert LinesAhead(ctx, id, index) == {};
    } else {
      hide LinesAhead, Eligibility.LinesOf;
      AheadCounted(ctx, id, index - 1);
      AheadStep(ctx, id, index - 1);
      LinesOfStep(ctx.lines, id, index - 1);
    }
  }

  lemma NoRoomExactly(ctx: Context, c: ClassConfig, index: nat)
    requires index <= |ctx.lines|
    ensures NoRoom(ctx, c, index) <==> Full(ctx, c, Eligibility.LinesOf(ctx.lines[..index], c.id))
  {
    PlacesCounted(ctx.entitlements, c.id, 0);
    assert TakenFrom(ctx.entitlements, c.id, 0) == TakenPlaces(ctx, c.id);
    assert ctx.entitlements[0..] == ctx.entitlements;
    AheadCounted(ctx, c.id, index);
    hide TakenPlaces, TakenFrom, LinesAhead, Placed, Eligibility.LinesOf;
  }

  // ---------------------------------------------------------------------------
  // The reason given
  // ---------------------------------------------------------------------------

  /** Main result: of the reasons that apply to a line, the one given. Registration closed comes before an
      unavailable class, then a seat held or asked for before, then a missing prerequisite, then a full class; and
      a line to which none applies is available. */
  lemma ReasonExactly(ctx: Context, line: Line, index: nat)
    requires index <= |ctx.lines|
    ensures
      var reason, id := ReasonFor(ctx, line, index), line.festivalClass;
      if !ctx.isOpen then reason == RegistrationClosed
      else if !InOffer(ctx, id) then reason == ClassNotAvailable
      else if HasSeat(ctx, line.child, id) || AskedBefore(ctx, line, index) then reason == AlreadyRegistered
      else if !Prepared(ctx, ctx.classes[id], line.child, index) then reason == MissingPrerequisite
      else if NoRoom(ctx, ctx.classes[id], index) then reason == SoldOut
      else reason == Available
  {
    var id := line.festivalClass;
    assert InOffer(ctx, id) <==> IsAvailableClass(ctx, id);
    assert AskedBefore(ctx, line, index) <==> Duplicated(ctx, line, index);
    HasSeatExactly(ctx, line.child, id);
    if id in ctx.classes {
      PreparedExactly(ctx, ctx.classes[id], line.child, index);
      NoRoomExactly(ctx, ctx.classes[id], index);
    }
    hide InOffer, IsAvailableClass, AskedBefore, Duplicated, HasSeat, Registered, Prepared, PrerequisiteMet, NoRoom;
    hide Full;
  }

  // ---------------------------------------------------------------------------
  // What satisfied the prerequisite
  // ---------------------------------------------------------------------------

  /** A verdict names its line's child and class. It lists what met the prerequisite of an available line: first
      the entitlement if there is one, then each line that does, in cart order; and nothing otherwise. */
  lemma VerdictFields(ctx: Context, line: Line, index: nat)
    requires index <= |ctx.lines|
    ensures
      var v := Evaluate(ctx, line, index);
      && v.child == line.child && v.festivalClass == line.festivalClass
      && v.reason == ReasonFor(ctx, line, index)
      && (v.reason != Available ==> v.satisfied == [])
      && (v.reason == Available ==>
            && line.festivalClass in ctx.classes
            && var target := ctx.classes[line.festivalClass];
               && ((forall required :: !Needs(ctx, target, required)) ==> v.satisfied == [])
               && forall required :: Needs(ctx, target, required) ==>
                    v.satisfied == (if PreparedBefore(ctx, target, required, line.child) then [ByEntitlement] else [])
                                   + SatisfyingLines(ctx, target, required, line.child, index, |ctx.lines|))
  {
    hide PrerequisiteMet, Registered, Duplicated, Full, Needs, PreparedBefore, Required, EntitlementSatisfies;
    hide SatisfyingLines;
    if ReasonFor(ctx, line, index) == Available {
      var target := ctx.classes[line.festivalClass];
      forall required ensures Needs(ctx, target, required) <==> Required(ctx, target) == Some(required) {
        NeedsExactly(ctx, target, required);
      }
      if Required(ctx, target).Some? {
        PreparedBeforeExactly(ctx, target, Required(ctx, target).value, line.child);
        assert Needs(ctx, target, Required(ctx, target).value);
      }
    }
  }

  /** The lines listed are exactly those that meet the prerequisite, each once, in cart order: there is an
      increasing list of their positions. */
  ghost predicate ListsLines(ctx: Context, target: ClassConfig, required: string, child: Id, index: nat, n: nat,
                             listed: seq<Satisfier>, at: seq<nat>)
  {
    && |at| == |listed|
    && (forall i, j :: 0 <= i < j < |at| ==> at[i] < at[j])
    && (forall j: nat :: j in at <==> j < n && PreparedByLine(ctx, target, required, child, index, j))
    && forall i :: 0 <= i < |at| ==>
         at[i] < |ctx.lines| && listed[i] == ByLine(ctx.lines[at[i]].festivalClass, ctx.lines[at[i]].id)
  }

  lemma {:induction false} LinesListed(ctx: Context, target: ClassConfig, required: string, child: Id, index: nat,
                                       n: nat) returns (at: seq<nat>)
    requires n <= |ctx.lines|
    ensures ListsLines(ctx, target, required, child, index, n,
                       SatisfyingLines(ctx, target, required, child, index, n), at)
    decreases n
  {
    if n == 0 {
      at := [];
    } else {
      var m := n - 1;
      at := LinesListed(ctx, target, required, child, index, m);
      assert PreparedByLine(ctx, target, required, child, index, m) <==>
             m != index && LineSatisfies(ctx, ctx.lines[m], target, required, child);
      hide PreparedByLine, LineSatisfies;
      var before := SatisfyingLines(ctx, target, required, child, index, m);
      var listed := SatisfyingLines(ctx, target, required, child, index, n);
      if PreparedByLine(ctx, target, required, child, index, m) {
        assert listed == before + [ByLine(ctx.lines[m].festivalClass, ctx.lines[m].id)];
        hide SatisfyingLines;
        LineAdded(ctx, target, required, child, index, m, before, at);
        at := at + [m];
      } else {
        assert listed == before + [] == before;
        hide SatisfyingLines;
        LineSkipped(ctx, target, required, child, index, m, before, at);
      }
    }
  }

  lemma LineAdded(ctx: Context, target: ClassConfig, required: string, child: Id, index: nat, n: nat,
                  listed: seq<Satisfier>, at: seq<nat>)
    requires n < |ctx.lines| && ListsLines(ctx, target, required, child, index, n, listed, at)
    requires PreparedByLine(ctx, target, required, child, index, n)
    ensures ListsLines(ctx, target, required, child, index, n + 1,
                       listed + [ByLine(ctx.lines[n].festivalClass, ctx.lines[n].id)], at + [n])
  {
    hide PreparedByLine;
    forall i | 0 <= i < |at| ensures at[i] < n {
      assert at[i] in at;
    }
    forall j: nat ensures j in at + [n] <==> j < n + 1 && PreparedByLine(ctx, target, required, child, index, j) {
      assert j in at + [n] <==> j in at || j == n;
    }
  }

  lemma LineSkipped(ctx: Context, target: ClassConfig, required: string, child: Id, index: nat, n: nat,
                    listed: seq<Satisfier>, at: seq<nat>)
    requires n < |ctx.lines| && ListsLines(ctx, target, required, child, index, n, listed, at)
    requires !PreparedByLine(ctx, target, required, child, index, n)
    ensures ListsLines(ctx, target, required, child, index, n + 1, listed, at)
  {
    hide PreparedByLine;
    forall j: nat ensures j in at <==> j < n + 1 && PreparedByLine(ctx, target, required, child, index, j) {
      assert j < n + 1 <==> j < n || j == n;
    }
  }

  // ---------------------------------------------------------------------------
  // Candidate markers
  // ---------------------------------------------------------------------------

  /** The id starts with the word candidate and a colon, an underscore or a hyphen. */
  ghost predicate IsMarked(id: string, rest: string) {
    id == "candidate:" + rest || id == "candidate_" + rest || id == "candidate-" + rest
  }

  lemma MarkedExactly(id: string, rest: string)
    ensures IsMarked(id, rest) ==> HasMarker(id) && id[10..] == rest
    ensures HasMarker(id) ==> IsMarked(id, id[10..])
  {
    if HasMarker(id) {
      assert id == id[..10] + id[10..];
    }
    if id == "candidate:" + rest {
      assert "candidate:" <= id;
    } else if id == "candidate_" + rest {
      assert "candidate_" <= id;
    } else if id == "candidate-" + rest {
      assert "candidate-" <= id;
    }
  }

  /** Stripping takes the marker off a marked id, and the id away if that leaves nothing; it leaves another id, the
      child and the class alone, and the line is no longer flagged. */
  lemma StripExactly(line: Line, rest: string)
    ensures
      var r := StripMarker(line);
      && r.child == line.child && r.festivalClass == line.festivalClass && !r.isCandidate
      && (line.id.Some? && IsMarked(line.id.value, rest) ==> r.id == if rest == "" then None else Some(rest))
      && ((line.id.Some? ==> forall x :: !IsMarked(line.id.value, x)) ==> r.id == line.id)
  {
    if line.id.Some? {
      MarkedExactly(line.id.value, rest);
      hide IsMarked, HasMarker;
      if HasMarker(line.id.value) {
        MarkedExactly(line.id.value, line.id.value[10..]);
      }
    }
  }

  lemma CandidateExactly(line: Line)
    ensures IsCandidate(line) <==> line.isCandidate || (line.id.Some? && exists x :: IsMarked(line.id.value, x))
  {
    if line.id.Some? {
      hide IsMarked, HasMarker;
      if HasMarker(line.id.value) {
        MarkedExactly(line.id.value, line.id.value[10..]);
      }
      if x :| IsMarked(line.id.value, x) {
        MarkedExactly(line.id.value, x);
      }
    }
  }
}
