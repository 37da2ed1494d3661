/** What the documented parser makes of the text `toQueryParam` writes: the
    text form reads back as the filter exactly when the state is absent or
    a non-empty string free of `|` and `=`, and `latest` is present exactly
    when `to` is. */
module FilterRoundTrip {
  import opened Wrappers
  import opened JavaConversions
  import opened JavaSplit
  import opened JobFilterCodec

  /** Text that can sit inside a part and a value without being cut. */
  predicate Clean(s: string) {
    '|' !in s && '=' !in s
  }

  /** A segment as it stands between two separators. */
  function Body(seg: Segment): string {
    seg.key + "=" + seg.value
  }

  function Bodies(segs: seq<Segment>): (r: seq<string>)
    ensures |r| == |segs|
    decreases |segs|
  {
    if segs == [] then [] else Bodies(segs[..|segs| - 1]) + [Body(segs[|segs| - 1])]
  }

  /** Keys and values hold no separator, and only the first segment may be
      `jobId`, the one written without a leading `|`. */
  predicate WellFormed(segs: seq<Segment>) {
    (forall i :: 0 <= i < |segs| ==> Clean(segs[i].key) && Clean(segs[i].value))
    && (forall i :: 0 < i < |segs| ==> segs[i].key != JobIdKey)
  }

  /** The empty part in front of the first `|` when the text does not start
      with `jobId`. */
  function LeadPiece(segs: seq<Segment>): seq<string> {
    if segs != [] && segs[0].key == JobIdKey then [] else [""]
  }

  /** The text of a segment list with one more segment that is not `jobId`. */
  lemma RenderWithSeparator(front: seq<Segment>, last: Segment)
    requires last.key != JobIdKey
    ensures Render(front + [last]) == Render(front) + ['|'] + Body(last)
  {
    assert (front + [last])[..|front|] == front;
  }

  /** Cutting a segment list with one more segment that is not `jobId`. */
  lemma PiecesWithSeparator(front: seq<Segment>, last: Segment)
    requires last.key != JobIdKey && Clean(last.key) && Clean(last.value)
    ensures Pieces(Render(front + [last]), '|') == Pieces(Render(front), '|') + [Body(last)]
  {
    RenderWithSeparator(front, last);
    PiecesAroundSeparator(Render(front), Body(last), '|');
    PiecesWithoutSeparator(Body(last), '|');
  }

  lemma {:induction false} PiecesOfRender(segs: seq<Segment>)
    requires WellFormed(segs)
    ensures Pieces(Render(segs), '|') == LeadPiece(segs) + Bodies(segs)
    decreases |segs|
  {
    if segs != [] {
      var front, last := segs[..|segs| - 1], segs[|segs| - 1];
      assert segs == front + [last];
      assert Clean(last.key) && Clean(last.value);
      if last.key == JobIdKey {
        assert front == [];
        assert Render(segs) == Body(last);
        PiecesWithoutSeparator(Body(last), '|');
      } else {
        assert WellFormed(front);
        PiecesOfRender(front);
        PiecesWithSeparator(front, last);
        assert LeadPiece(segs) == LeadPiece(front) by {
          if front != [] {
            assert front[0] == segs[0];
          }
        }
      }
    }
  }

  /** The parts of a rendered text: the bodies of its segments, after an empty
      part when it starts with `|` or is empty. */
  lemma SplitOfRender(segs: seq<Segment>)
    requires WellFormed(segs)
    ensures Split(Render(segs), '|') == LeadPiece(segs) + Bodies(segs)
  {
    PiecesOfRender(segs);
    if segs != [] {
      var last := segs[|segs| - 1];
      assert Bodies(segs)[|segs| - 1] == Body(last);
      assert Body(last) != "";
      SplitKeepsNonEmptyEnd(Render(segs), '|');
    }
  }

  /** A part `key=value` with clean key and value yields that entry, unless
      the value is empty. */
  lemma EntryOfBody(key: string, value: string)
    requires '=' !in key && '=' !in value
    ensures Entry(key + "=" + value) == if value == "" then None else Some((key, value))
  {
    var part := key + "=" + value;
    PiecesAroundSeparator(key, value, '=');
    assert part == key + ['='] + value;
    PiecesWithoutSeparator(key, '=');
    PiecesWithoutSeparator(value, '=');
    assert '=' in part by {
      assert part[|key|] == '=';
    }
    var data := Split(part, '=');
    assert data == StripTrailingEmpty([key, value]);
    if value != "" {
      assert |data| == 2;
    } else {
      assert |data| <= 1;
    }
  }

  /** The map that the entries of `segs` produce, in order, skipping empty
      values. */
  function SegMap(segs: seq<Segment>): map<string, string>
    decreases |segs|
  {
    if segs == [] then map[]
    else
      var m := SegMap(segs[..|segs| - 1]);
      var last := segs[|segs| - 1];
      if last.value == "" then m else m[last.key := last.value]
  }

  lemma {:induction false} CollectBodies(segs: seq<Segment>)
    requires WellFormed(segs)
    ensures CollectParams(Bodies(segs)) == SegMap(segs)
    decreases |segs|
  {
    if segs != [] {
      var front, last := segs[..|segs| - 1], segs[|segs| - 1];
      assert WellFormed(front);
      CollectBodies(front);
      assert Clean(last.key) && Clean(last.value);
      EntryOfBody(last.key, last.value);
      assert Bodies(segs)[..|segs| - 1] == Bodies(front);
    }
  }

  /** An empty part in front changes nothing. */
  lemma {:induction false} CollectAfterEmptyPart(parts: seq<string>)
    ensures CollectParams([""] + parts) == CollectParams(parts)
    decreases |parts|
  {
    if parts == [] {
      assert Entry("") == None;
      assert ([""] + parts)[..0] == [];
    } else {
      var whole := [""] + parts;
      assert whole[..|whole| - 1] == [""] + parts[..|parts| - 1];
      CollectAfterEmptyPart(parts[..|parts| - 1]);
    }
  }

  /** The documented parser's map for a rendered text. */
  lemma CollectOfRender(segs: seq<Segment>)
    requires WellFormed(segs)
    ensures CollectParams(Split(Render(segs), '|')) == SegMap(segs)
  {
    SplitOfRender(segs);
    CollectBodies(segs);
    if LeadPiece(segs) == [""] {
      CollectAfterEmptyPart(Bodies(segs));
    } else {
      assert LeadPiece(segs) + Bodies(segs) == Bodies(segs);
    }
  }

  predicate StateClean(f: JobFilter) {
    f.state.None? || Clean(f.state.value)
  }

  lemma CleanKeys()
    ensures Clean(JobIdKey) && Clean(UserIdKey) && Clean(StateKey)
    ensures Clean(FromKey) && Clean(ToKey) && Clean(LatestKey)
  {
  }

  lemma CleanValues(n: Long, b: Option<bool>)
    ensures Clean(LongToString(n)) && Clean(BooleanToString(b))
  {
    var s := LongToString(n);
    assert forall i :: 0 <= i < |s| ==> s[i] != '|' && s[i] != '=';
  }

  /** One more optional segment keeps a segment list well formed. */
  lemma WellFormedOptional(segs: seq<Segment>, present: bool, key: string, value: string)
    requires WellFormed(segs) && Clean(key) && Clean(value)
    requires key == JobIdKey ==> segs == []
    ensures WellFormed(segs + OptionalSegment(present, key, value))
  {
  }

  lemma SegmentsWellFormed(f: JobFilter)
    requires StateClean(f)
    ensures WellFormed(Segments(f))
  {
    CleanKeys();
    KeysDistinct();
    if f.jobId.Some? { CleanValues(f.jobId.value, None); }
    if f.userId.Some? { CleanValues(f.userId.value, None); }
    if f.from.Some? { CleanValues(f.from.value, None); }
    if f.to.Some? { CleanValues(f.to.value, f.latest); }
    CleanValues(0, f.latest);
    var j := OptionalSegment(f.jobId.Some?, JobIdKey, LongText(f.jobId));
    var u := OptionalSegment(f.userId.Some?, UserIdKey, LongText(f.userId));
    var s := OptionalSegment(f.state.Some?, StateKey, StateText(f.state));
    var fr := OptionalSegment(f.from.Some?, FromKey, LongText(f.from));
    var t := OptionalSegment(f.to.Some?, ToKey, LongText(f.to));
    WellFormedOptional([], f.jobId.Some?, JobIdKey, LongText(f.jobId));
    assert [] + j == j;
    WellFormedOptional(j, f.userId.Some?, UserIdKey, LongText(f.userId));
    WellFormedOptional(j + u, f.state.Some?, StateKey, StateText(f.state));
    WellFormedOptional(j + u + s, f.from.Some?, FromKey, LongText(f.from));
    WellFormedOptional(j + u + s + fr, f.to.Some?, ToKey, LongText(f.to));
    WellFormedOptional(j + u + s + fr + t, f.to.Some?, LatestKey, BooleanToString(f.latest));
  }

  /** The map after the `put` of one optional segment. */
  function Put(m: map<string, string>, present: bool, key: string, value: string): map<string, string> {
    if present && value != "" then m[key := value] else m
  }

  /** Adding the segment of one field to the map. */
  lemma SegMapOptional(segs: seq<Segment>, present: bool, key: string, value: string)
    ensures SegMap(segs + OptionalSegment(present, key, value)) == Put(SegMap(segs), present, key, value)
  {
    if present {
      assert (segs + [Segment(key, value)])[..|segs|] == segs;
    } else {
      assert segs + [] == segs;
    }
  }

  /** The map the documented parser builds from the text form of `f`. */
  function ParamsOf(f: JobFilter): map<string, string> {
    var m1 := Put(map[], f.jobId.Some?, JobIdKey, LongText(f.jobId));
    var m2 := Put(m1, f.userId.Some?, UserIdKey, LongText(f.userId));
    var m3 := Put(m2, f.state.Some?, StateKey, StateText(f.state));
    var m4 := Put(m3, f.from.Some?, FromKey, LongText(f.from));
    var m5 := Put(m4, f.to.Some?, ToKey, LongText(f.to));
    Put(m5, f.to.Some?, LatestKey, BooleanToString(f.latest))
  }

  lemma SegMapOfSegments(f: JobFilter)
    ensures SegMap(Segments(f)) == ParamsOf(f)
  {
    var j := OptionalSegment(f.jobId.Some?, JobIdKey, LongText(f.jobId));
    var u := OptionalSegment(f.userId.Some?, UserIdKey, LongText(f.userId));
    var s := OptionalSegment(f.state.Some?, StateKey, StateText(f.state));
    var fr := OptionalSegment(f.from.Some?, FromKey, LongText(f.from));
    var t := OptionalSegment(f.to.Some?, ToKey, LongText(f.to));
    SegMapOptional([], f.jobId.Some?, JobIdKey, LongText(f.jobId));
    assert [] + j == j;
    SegMapOptional(j, f.userId.Some?, UserIdKey, LongText(f.userId));
    SegMapOptional(j + u, f.state.Some?, StateKey, StateText(f.state));
    SegMapOptional(j + u + s, f.from.Some?, FromKey, LongText(f.from));
    SegMapOptional(j + u + s + fr, f.to.Some?, ToKey, LongText(f.to));
    SegMapOptional(j + u + s + fr + t, f.to.Some?, LatestKey, BooleanToString(f.latest));
  }

  /** What the text form of `f` reads back as: an empty state is lost, and
      `latest` follows `to`, reading false when it was absent. */
  function Normalise(f: JobFilter): JobFilter {
    f.(state := if f.state == Some("") then None else f.state,
       latest := if f.to.Some? then Some(f.latest == Some(true)) else None)
  }

  /** Which keys the map of `f` holds, and with what text. */
  lemma ParamsOfLookup(f: JobFilter)
    ensures JobIdKey in ParamsOf(f) <==> f.jobId.Some?
    ensures UserIdKey in ParamsOf(f) <==> f.userId.Some?
    ensures StateKey in ParamsOf(f) <==> f.state.Some? && f.state.value != ""
    ensures FromKey in ParamsOf(f) <==> f.from.Some?
    ensures ToKey in ParamsOf(f) <==> f.to.Some?
    ensures LatestKey in ParamsOf(f) <==> f.to.Some?
    ensures f.jobId.Some? ==> ParamsOf(f)[JobIdKey] == LongToString(f.jobId.value)
    ensures f.userId.Some? ==> ParamsOf(f)[UserIdKey] == LongToString(f.userId.value)
    ensures StateKey in ParamsOf(f) ==> ParamsOf(f)[StateKey] == f.state.value
    ensures f.from.Some? ==> ParamsOf(f)[FromKey] == LongToString(f.from.value)
    ensures f.to.Some? ==> ParamsOf(f)[ToKey] == LongToString(f.to.value)
    ensures f.to.Some? ==> ParamsOf(f)[LatestKey] == BooleanToString(f.latest)
  {
    KeysDistinct();
  }

  /** A present number reads back as itself. */
  lemma LongParamOf(m: map<string, string>, key: string, n: Option<Long>)
    requires key in m <==> n.Some?
    requires n.Some? ==> m[key] == LongToString(n.value)
    ensures LongParam(m, key) == Success(n)
  {
    if n.Some? {
      LongRoundTrip(n.value);
    }
  }

  lemma FromParamsOf(f: JobFilter)
    ensures FromParams(ParamsOf(f)) == Success(Normalise(f))
  {
    var m := ParamsOf(f);
    ParamsOfLookup(f);
    LongParamOf(m, JobIdKey, f.jobId);
    LongParamOf(m, UserIdKey, f.userId);
    LongParamOf(m, FromKey, f.from);
    LongParamOf(m, ToKey, f.to);
    BooleanRoundTrip(f.latest);
  }

  /** The documented parser applied to the text form of a filter whose state
      holds no separator. */
  lemma DecodeEncode(f: JobFilter)
    requires StateClean(f)
    ensures Decode(Encode(f)) == Success(Normalise(f))
  {
    SegmentsWellFormed(f);
    CollectOfRender(Segments(f));
    SegMapOfSegments(f);
    FromParamsOf(f);
  }

  /** Every value the documented parser collects is clean. */
  lemma {:induction false} CollectedValuesClean(parts: seq<string>)
    requires forall i :: 0 <= i < |parts| ==> '|' !in parts[i]
    ensures forall k :: k in CollectParams(parts) ==> Clean(CollectParams(parts)[k])
    decreases |parts|
  {
    if parts != [] {
      var last := parts[|parts| - 1];
      CollectedValuesClean(parts[..|parts| - 1]);
      var data := Split(last, '=');
      if |data| > 1 {
        if '|' in data[1] {
          var ch := '|';
          SplitCharsFromInput(last, '=', 1, ch);
        }
      }
    }
  }

  /** A state the documented parser returns holds no separator. */
  lemma DecodedStateClean(q: string)
    requires Decode(q).Success?
    ensures StateClean(Decode(q).value)
  {
    CollectedValuesClean(Split(q, '|'));
  }

  /** The filters whose text form reads back unchanged. */
  predicate RoundTrips(f: JobFilter) {
    (f.state.None? || (f.state.value != "" && Clean(f.state.value)))
    && (f.latest.Some? <==> f.to.Some?)
  }

  /** The documented round trip holds exactly on `RoundTrips`. */
  lemma RoundTrip(f: JobFilter)
    ensures Decode(Encode(f)) == Success(f) <==> RoundTrips(f)
  {
    if StateClean(f) {
      DecodeEncode(f);
    } else if Decode(Encode(f)).Success? {
      DecodedStateClean(Encode(f));
    }
  }
}
