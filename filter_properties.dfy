/** Properties of the text form and of the string constructor: the order and
    shape of the segments `toQueryParam` writes, how the constructor treats
    each part, how it converts values, and what the constructor as written
    does with the example its own documentation gives. */
module FilterProperties {
  import opened Wrappers
  import opened JavaConversions
  import opened JavaSplit
  import opened JobFilterCodec
  import opened FilterRoundTrip

  // ---------------------------------------------------------------------
  // The text form

  /** Position of a key in the fixed writing order; 6 for any other key. */
  function Rank(key: string): nat {
    if key == JobIdKey then 0
    else if key == UserIdKey then 1
    else if key == StateKey then 2
    else if key == FromKey then 3
    else if key == ToKey then 4
    else if key == LatestKey then 5
    else 6
  }

  lemma RankOfKeys()
    ensures Rank(JobIdKey) == 0 && Rank(UserIdKey) == 1 && Rank(StateKey) == 2
    ensures Rank(FromKey) == 3 && Rank(ToKey) == 4 && Rank(LatestKey) == 5
  {
    KeysDistinct();
  }

  predicate InKeyOrder(segs: seq<Segment>) {
    forall i, j :: 0 <= i < j < |segs| ==> Rank(segs[i].key) < Rank(segs[j].key)
  }

  predicate RanksAtMost(segs: seq<Segment>, bound: nat) {
    forall i :: 0 <= i < |segs| ==> Rank(segs[i].key) <= bound
  }

  lemma OrderOptional(segs: seq<Segment>, present: bool, key: string, value: string, below: nat)
    requires InKeyOrder(segs) && RanksAtMost(segs, below) && below < Rank(key)
    ensures InKeyOrder(segs + OptionalSegment(present, key, value))
    ensures RanksAtMost(segs + OptionalSegment(present, key, value), Rank(key))
  {
  }

  /** `toQueryParam` writes the segments in the fixed order jobId, userId,
      state, from, to, latest, each key at most once and no other key. */
  lemma SegmentsInKeyOrder(f: JobFilter)
    ensures InKeyOrder(Segments(f)) && RanksAtMost(Segments(f), 5)
  {
    RankOfKeys();
    var j := OptionalSegment(f.jobId.Some?, JobIdKey, LongText(f.jobId));
    var u := OptionalSegment(f.userId.Some?, UserIdKey, LongText(f.userId));
    var s := OptionalSegment(f.state.Some?, StateKey, StateText(f.state));
    var fr := OptionalSegment(f.from.Some?, FromKey, LongText(f.from));
    var t := OptionalSegment(f.to.Some?, ToKey, LongText(f.to));
    var l := OptionalSegment(f.to.Some?, LatestKey, BooleanToString(f.latest));
    assert InKeyOrder(j) && RanksAtMost(j, 0);
    OrderOptional(j, f.userId.Some?, UserIdKey, LongText(f.userId), 0);
    OrderOptional(j + u, f.state.Some?, StateKey, StateText(f.state), 1);
    OrderOptional(j + u + s, f.from.Some?, FromKey, LongText(f.from), 2);
    OrderOptional(j + u + s + fr, f.to.Some?, ToKey, LongText(f.to), 3);
    OrderOptional(j + u + s + fr + t, f.to.Some?, LatestKey, BooleanToString(f.latest), 4);
    assert Segments(f) == j + u + s + fr + t + l;
  }

  predicate HasKey(segs: seq<Segment>, key: string) {
    exists i :: 0 <= i < |segs| && segs[i].key == key
  }

  lemma HasKeyOptional(segs: seq<Segment>, present: bool, k: string, value: string, key: string)
    ensures HasKey(segs + OptionalSegment(present, k, value), key) <==> HasKey(segs, key) || (present && k == key)
  {
    var all := segs + OptionalSegment(present, k, value);
    if HasKey(all, key) {
      var i :| 0 <= i < |all| && all[i].key == key;
      if i < |segs| {
        assert segs[i].key == key;
      }
    }
    if HasKey(segs, key) {
      var i :| 0 <= i < |segs| && segs[i].key == key;
      assert all[i].key == key;
    }
    if present && k == key {
      assert all[|segs|].key == key;
    }
  }

  lemma HasKeyOfSegments(f: JobFilter, key: string)
    ensures HasKey(Segments(f), key) <==>
      (f.jobId.Some? && key == JobIdKey) || (f.userId.Some? && key == UserIdKey)
      || (f.state.Some? && key == StateKey) || (f.from.Some? && key == FromKey)
      || (f.to.Some? && key == ToKey) || (f.to.Some? && key == LatestKey)
  {
    var j := OptionalSegment(f.jobId.Some?, JobIdKey, LongText(f.jobId));
    var u := OptionalSegment(f.userId.Some?, UserIdKey, LongText(f.userId));
    var s := OptionalSegment(f.state.Some?, StateKey, StateText(f.state));
    var fr := OptionalSegment(f.from.Some?, FromKey, LongText(f.from));
    var t := OptionalSegment(f.to.Some?, ToKey, LongText(f.to));
    var l := OptionalSegment(f.to.Some?, LatestKey, BooleanToString(f.latest));
    HasKeyOptional([], f.jobId.Some?, JobIdKey, LongText(f.jobId), key);
    assert [] + j == j;
    HasKeyOptional(j, f.userId.Some?, UserIdKey, LongText(f.userId), key);
    HasKeyOptional(j + u, f.state.Some?, StateKey, StateText(f.state), key);
    HasKeyOptional(j + u + s, f.from.Some?, FromKey, LongText(f.from), key);
    HasKeyOptional(j + u + s + fr, f.to.Some?, ToKey, LongText(f.to), key);
    HasKeyOptional(j + u + s + fr + t, f.to.Some?, LatestKey, BooleanToString(f.latest), key);
    assert Segments(f) == j + u + s + fr + t + l;
  }

  /** A key is written exactly when its field is present, except `latest`,
      which is written exactly when `to` is present, whatever `latest` holds. */
  lemma SegmentKeys(f: JobFilter, key: string)
    requires key in Keys
    ensures HasKey(Segments(f), key) <==>
      if key == JobIdKey then f.jobId.Some?
      else if key == UserIdKey then f.userId.Some?
      else if key == StateKey then f.state.Some?
      else if key == FromKey then f.from.Some?
      else f.to.Some?
  {
    KeysDistinct();
    HasKeyOfSegments(f, key);
  }

  /** A non-empty list of segments renders to non-empty text. */
  lemma RenderEmpty(segs: seq<Segment>)
    ensures Render(segs) == "" <==> segs == []
  {
    if segs != [] {
      var last := segs[|segs| - 1];
      assert |SegmentText(last)| > 0;
    }
  }

  /** The text form is empty exactly when the first five fields are absent;
      `latest` alone writes nothing. */
  lemma EncodeEmpty(f: JobFilter)
    ensures Encode(f) == "" <==>
      f.jobId.None? && f.userId.None? && f.state.None? && f.from.None? && f.to.None?
  {
    RenderEmpty(Segments(f));
  }

  predicate StartsWith(s: string, prefix: string) {
    |prefix| <= |s| && s[..|prefix|] == prefix
  }

  predicate EndsWith(s: string, suffix: string) {
    |suffix| <= |s| && s[|s| - |suffix|..] == suffix
  }

  /** The text of a single segment. */
  lemma RenderOne(seg: Segment)
    ensures Render([seg]) == SegmentText(seg)
  {
    assert [seg][..0] == [];
  }

  /** Rendered text opens with the text of its first segment. */
  lemma RenderStartsWithFirst(segs: seq<Segment>)
    requires segs != []
    ensures StartsWith(Render(segs), SegmentText(segs[0]))
  {
    assert segs == [segs[0]] + segs[1..];
    RenderConcat([segs[0]], segs[1..]);
    RenderOne(segs[0]);
  }

  /** `jobId=` and the number open the text when `jobId` is present. */
  lemma LeadingJobId(f: JobFilter)
    requires f.jobId.Some?
    ensures StartsWith(Encode(f), "jobId=" + LongToString(f.jobId.value))
  {
    var segs := Segments(f);
    assert segs[0] == Segment(JobIdKey, LongToString(f.jobId.value));
    RenderStartsWithFirst(segs);
    assert "jobId=" + LongToString(f.jobId.value) == SegmentText(segs[0]) by {
      SegmentPrefixes();
    }
  }

  /** Without `jobId` a non-empty text opens with `|`: every other segment
      carries its separator whether or not anything precedes it. */
  lemma LeadingSeparator(f: JobFilter)
    requires f.jobId.None? && Encode(f) != ""
    ensures Encode(f)[0] == '|'
  {
    var segs := Segments(f);
    RenderEmpty(segs);
    assert segs[0].key != JobIdKey by {
      assert Keys[0] == JobIdKey;
      SegmentKeys(f, JobIdKey);
    }
    RenderStartsWithFirst(segs);
    assert SegmentText(segs[0])[0] == '|';
  }

  /** A filter with only `userId` set is written with a leading `|`. */
  lemma OnlyUserId(n: Long, latest: Option<bool>)
    ensures Encode(JobFilter(None, Some(n), None, None, None, latest)) == "|userId=" + LongToString(n)
  {
    SegmentPrefixes();
    var f := JobFilter(None, Some(n), None, None, None, latest);
    var seg := Segment(UserIdKey, LongToString(n));
    assert Segments(f) == [seg];
    AppendSegment("", [], "|userId=", UserIdKey, LongToString(n));
    assert [] + [seg] == [seg];
  }

  lemma EndsWithAppend(text: string, suffix: string)
    ensures EndsWith(text + suffix, suffix)
  {
    assert (text + suffix)[|text|..] == suffix;
  }

  /** With `to` present the last segment is the `latest` one. */
  lemma LastSegmentIsLatest(f: JobFilter)
    requires f.to.Some?
    ensures Segments(f) == Segments(f)[..|Segments(f)| - 1] + [Segment(LatestKey, BooleanToString(f.latest))]
  {
    var front := OptionalSegment(f.jobId.Some?, JobIdKey, LongText(f.jobId))
      + OptionalSegment(f.userId.Some?, UserIdKey, LongText(f.userId))
      + OptionalSegment(f.state.Some?, StateKey, StateText(f.state))
      + OptionalSegment(f.from.Some?, FromKey, LongText(f.from))
      + OptionalSegment(f.to.Some?, ToKey, LongText(f.to));
    assert Segments(f) == front + [Segment(LatestKey, BooleanToString(f.latest))];
  }

  /** Rendered text ends with the text of its last segment. */
  lemma RenderEndsWithLast(segs: seq<Segment>)
    requires segs != []
    ensures EndsWith(Render(segs), SegmentText(segs[|segs| - 1]))
  {
    EndsWithAppend(Render(segs[..|segs| - 1]), SegmentText(segs[|segs| - 1]));
  }

  /** With `to` present the text ends with the `latest` segment, which reads
      `latest=null` when `latest` is absent. */
  lemma LatestSegmentText(f: JobFilter)
    requires f.to.Some?
    ensures EndsWith(Encode(f), "|latest=" + BooleanToString(f.latest))
    ensures f.latest.None? ==> EndsWith(Encode(f), "|latest=null")
  {
    var segs := Segments(f);
    var value := BooleanToString(f.latest);
    LastSegmentIsLatest(f);
    assert segs[|segs| - 1] == Segment(LatestKey, value);
    RenderEndsWithLast(segs);
    assert SegmentText(Segment(LatestKey, value)) == "|latest=" + value by {
      SegmentPrefixes();
    }
  }

  // ---------------------------------------------------------------------
  // How the string constructor treats each part

  /** One more part: its entry, if any, is put into the map. */
  lemma CollectOneMore(parts: seq<string>, part: string)
    ensures Entry(part).None? ==> CollectParams(parts + [part]) == CollectParams(parts)
    ensures Entry(part).Some? ==>
      CollectParams(parts + [part]) == CollectParams(parts)[Entry(part).value.0 := Entry(part).value.1]
  {
    assert (parts + [part])[..|parts|] == parts;
  }

  /** A part without `=` is ignored. */
  lemma PartWithoutEqualsIgnored(parts: seq<string>, part: string)
    requires '=' !in part
    ensures CollectParams(parts + [part]) == CollectParams(parts)
  {
    assert (parts + [part])[..|parts|] == parts;
  }

  /** A part `key=` with an empty value is ignored. */
  lemma EmptyValueIgnored(parts: seq<string>, key: string)
    requires '=' !in key
    ensures CollectParams(parts + [key + "="]) == CollectParams(parts)
  {
    EntryOfBody(key, "");
    assert key + "=" + "" == key + "=";
    assert (parts + [key + "="])[..|parts|] == parts;
  }

  /** Only the text between the first and the second `=` is kept as the
      value; whatever follows the second `=` is dropped. */
  lemma ValueUpToSecondEquals(parts: seq<string>, key: string, value: string, rest: string)
    requires '=' !in key && '=' !in value && value != ""
    requires rest == "" || rest[0] == '='
    ensures CollectParams(parts + [key + "=" + value + rest]) == CollectParams(parts)[key := value]
  {
    var part := key + "=" + value + rest;
    assert (parts + [part])[..|parts|] == parts;
    if rest == "" {
      EntryOfBody(key, value);
      assert part == key + "=" + value;
    } else {
      var tail := rest[1..];
      assert part == key + ['='] + (value + ['='] + tail);
      PiecesAroundSeparator(key, value + ['='] + tail, '=');
      PiecesAroundSeparator(value, tail, '=');
      PiecesWithoutSeparator(key, '=');
      PiecesWithoutSeparator(value, '=');
      var ps := Pieces(part, '=');
      assert ps[0] == key && ps[1] == value;
      assert '=' in part by {
        assert part[|key|] == '=';
      }
      var data := Split(part, '=');
      assert data == StripTrailingEmpty(ps);
      assert |data| >= 2;
    }
  }

  /** A part `key==tail` stores the empty text between the two `=` under
      the key; it is not ignored as a part `key=` is. */
  lemma EmptyValueBetweenEquals(parts: seq<string>, key: string, tail: string)
    requires '=' !in key && '=' !in tail && tail != ""
    ensures CollectParams(parts + [key + "==" + tail]) == CollectParams(parts)[key := ""]
  {
    var part := key + "==" + tail;
    assert part == key + ['='] + ("" + ['='] + tail);
    PiecesAroundSeparator(key, "" + ['='] + tail, '=');
    PiecesAroundSeparator("", tail, '=');
    PiecesWithoutSeparator(key, '=');
    PiecesWithoutSeparator(tail, '=');
    assert Pieces(part, '=') == [key, "", tail];
    SplitKeepsNonEmptyEnd(part, '=');
    CollectOneMore(parts, part);
  }

  lemma DoubleEqualsCollected()
    ensures CollectParams(Split("jobId==5", '|')) == map[JobIdKey := ""]
  {
    assert '|' !in "jobId==5";
    EmptyValueBetweenEquals([], JobIdKey, "5");
    assert JobIdKey + "==" + "5" == "jobId==5";
    assert [] + ["jobId==5"] == ["jobId==5"];
  }

  lemma EmptyJobIdRead()
    ensures FromParams(map[JobIdKey := ""]) == Failure(NumberFormatException(""))
  {
    assert ParseLong("") == Failure(NumberFormatException(""));
  }

  /** The empty value stored by `jobId==5` reaches `Long.valueOf`, which
      throws. */
  lemma EmptyNumberThrows()
    ensures Decode("jobId==5") == Failure(NumberFormatException(""))
  {
    DoubleEqualsCollected();
    EmptyJobIdRead();
  }

  /** Parts without an entry under `key` keep what the map holds there. */
  lemma {:induction false} KeyKept(prefix: seq<string>, later: seq<string>, key: string, value: string)
    requires key in CollectParams(prefix) && CollectParams(prefix)[key] == value
    requires forall i :: 0 <= i < |later| ==> Entry(later[i]).None? || Entry(later[i]).value.0 != key
    ensures key in CollectParams(prefix + later) && CollectParams(prefix + later)[key] == value
    decreases |later|
  {
    if later == [] {
      assert prefix + later == prefix;
    } else {
      var front, last := later[..|later| - 1], later[|later| - 1];
      assert prefix + later == (prefix + front) + [last];
      KeyKept(prefix, front, key, value);
      CollectOneMore(prefix + front, last);
    }
  }

  /** A later part with a key replaces what an earlier part put under it. */
  lemma LaterPartWins(parts: seq<string>, part: string, later: seq<string>, key: string, value: string)
    requires Entry(part) == Some((key, value))
    requires forall i :: 0 <= i < |later| ==> Entry(later[i]).None? || Entry(later[i]).value.0 != key
    ensures key in CollectParams(parts + [part] + later)
    ensures CollectParams(parts + [part] + later)[key] == value
  {
    CollectOneMore(parts, part);
    KeyKept(parts + [part], later, key, value);
  }

  /** A key outside the six recognised ones does not affect the filter. */
  lemma UnrecognisedKeyIgnored(params: map<string, string>, key: string, value: string)
    requires key !in Keys
    ensures FromParams(params[key := value]) == FromParams(params)
  {
    var m := params[key := value];
    assert LongParam(m, JobIdKey) == LongParam(params, JobIdKey);
    assert LongParam(m, UserIdKey) == LongParam(params, UserIdKey);
    assert LongParam(m, FromKey) == LongParam(params, FromKey);
    assert LongParam(m, ToKey) == LongParam(params, ToKey);
  }

  // ---------------------------------------------------------------------
  // How the string constructor converts values

  /** The value under a numeric key is not a `long` in decimal. */
  predicate Malformed(params: map<string, string>, key: string) {
    key in params && ParseLong(params[key]).Failure?
  }

  /** Reading the filter back fails exactly when one of `jobId`, `userId`,
      `from`, `to` holds something that is not a decimal `long`; `state` and
      `latest` never fail. A bad `jobId` is the one reported, being read
      first. */
  lemma FromParamsFailure(params: map<string, string>)
    ensures FromParams(params).Failure? <==>
      Malformed(params, JobIdKey) || Malformed(params, UserIdKey)
      || Malformed(params, FromKey) || Malformed(params, ToKey)
    ensures Malformed(params, JobIdKey) ==>
      FromParams(params) == Failure(NumberFormatException(params[JobIdKey]))
  {
  }

  /** `latest` reads true exactly when its text is "true" in any case, and
      is absent exactly when the key is. */
  lemma LatestConversion(params: map<string, string>)
    requires FromParams(params).Success?
    ensures FromParams(params).value.latest.None? <==> LatestKey !in params
    ensures FromParams(params).value.latest == Some(true) <==>
      LatestKey in params && EqualsIgnoreCase(params[LatestKey], "true")
  {
  }

  // ---------------------------------------------------------------------
  // The constructor as written, on its own documented example

  /** "jobId=1|userId=1|state=STARTED|from=123456|to=123456" */
  const DocumentedExample: string :=
    "jobId=1" + "|userId=1" + "|state=STARTED" + "|from=123456" + "|to=123456"

  /** The constructor's own documented example loses every field when
      split with the regular expression `|`. */
  lemma DocumentedExampleLost()
    ensures CollectParams(SplitEmptyAlternation(DocumentedExample)) == map[]
  {
    ShortPartsCollectNothing(SplitEmptyAlternation(DocumentedExample));
  }

  /** Every filter that is not empty and that the text form can carry is
      lost by the constructor as written, and recovered when the text is cut
      at the `|` character. */
  lemma AsWrittenLosesEveryFilter(f: JobFilter)
    requires RoundTrips(f) && f != EmptyFilter
    ensures ParseAsWritten(Encode(f)) == Success(EmptyFilter)
    ensures ParseAsWritten(Encode(f)) != Success(f)
    ensures Decode(Encode(f)) == Success(f)
  {
    ShortPartsCollectNothing(SplitEmptyAlternation(Encode(f)));
    RoundTrip(f);
  }
}
