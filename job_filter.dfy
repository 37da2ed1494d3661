/** The job filter: the criteria the service layer sends to the ETL layer
    when it asks for the status of jobs, and its text form, a list of
    `key=value` segments separated by `|`. */
module JobFilterCodec {
  import opened Wrappers
  import opened JavaConversions
  import opened JavaSplit

  /** Six independently optional criteria (a Java `null` is `None`).
      `from` and `to` are timestamps in milliseconds since the epoch; the
      getters of the Java class are this datatype's field selectors. */
  datatype JobFilter = JobFilter(
    jobId: Option<Long>,
    userId: Option<Long>,
    state: Option<string>,
    from: Option<Long>,
    to: Option<Long>,
    latest: Option<bool>)

  const EmptyFilter := JobFilter(None, None, None, None, None, None)

  /** The field constructor: it accepts every combination of present and
      absent criteria and keeps each one as given, timestamps included. */
  function Create(inJobId: Option<Long>, inUserId: Option<Long>, inState: Option<string>,
                  inFrom: Option<Long>, inTo: Option<Long>, latest: Option<bool>): (f: JobFilter)
    ensures f.jobId == inJobId && f.userId == inUserId && f.state == inState
    ensures f.from == inFrom && f.to == inTo && f.latest == latest
  {
    JobFilter(inJobId, inUserId, inState, inFrom, inTo, latest)
  }

  const JobIdKey: string := "jobId"
  const UserIdKey: string := "userId"
  const StateKey: string := "state"
  const FromKey: string := "from"
  const ToKey: string := "to"
  const LatestKey: string := "latest"

  /** The recognised keys, in the order the text form writes them. */
  const Keys: seq<string> := [JobIdKey, UserIdKey, StateKey, FromKey, ToKey, LatestKey]

  /** No two recognised keys are the same. */
  lemma KeysDistinct()
    ensures JobIdKey != UserIdKey && JobIdKey != StateKey && JobIdKey != FromKey
    ensures JobIdKey != ToKey && JobIdKey != LatestKey
    ensures UserIdKey != StateKey && UserIdKey != FromKey && UserIdKey != ToKey && UserIdKey != LatestKey
    ensures StateKey != FromKey && StateKey != ToKey && StateKey != LatestKey
    ensures FromKey != ToKey && FromKey != LatestKey && ToKey != LatestKey
  {
    assert JobIdKey[0] != StateKey[0];
    assert UserIdKey[0] != LatestKey[0];
  }

  /** One `key=value` segment of the text form. */
  datatype Segment = Segment(key: string, value: string)

  /** The segment of a field: none when the field is absent. */
  function OptionalSegment(present: bool, key: string, value: string): seq<Segment> {
    if present then [Segment(key, value)] else []
  }

  /** The text `StringBuilder.append` writes for a present number. */
  function LongText(n: Option<Long>): string {
    if n.Some? then LongToString(n.value) else ""
  }

  function StateText(state: Option<string>): string {
    if state.Some? then state.value else ""
  }

  /** The segments `toQueryParam` writes for `f`, in order: one per present
      field, except that the `latest` segment is written whenever `to` is
      present, with the text "null" when `latest` itself is absent. */
  function Segments(f: JobFilter): seq<Segment> {
    OptionalSegment(f.jobId.Some?, JobIdKey, LongText(f.jobId))
    + OptionalSegment(f.userId.Some?, UserIdKey, LongText(f.userId))
    + OptionalSegment(f.state.Some?, StateKey, StateText(f.state))
    + OptionalSegment(f.from.Some?, FromKey, LongText(f.from))
    + OptionalSegment(f.to.Some?, ToKey, LongText(f.to))
    + OptionalSegment(f.to.Some?, LatestKey, BooleanToString(f.latest))
  }

  /** What precedes a segment: nothing before `jobId`, a `|` before every
      other key, whether or not anything was written before it. */
  function Separator(key: string): string {
    if key == JobIdKey then "" else "|"
  }

  function SegmentText(seg: Segment): string {
    Separator(seg.key) + seg.key + "=" + seg.value
  }

  /** The segments written one after the other. */
  function Render(segs: seq<Segment>): string
    decreases |segs|
  {
    if segs == [] then "" else Render(segs[..|segs| - 1]) + SegmentText(segs[|segs| - 1])
  }

  /** The text form of `f`, the specification of `ToQueryParam`. */
  function Encode(f: JobFilter): string {
    Render(Segments(f))
  }

  /** Rendering a list of segments is rendering its two halves. */
  lemma {:induction false} RenderConcat(a: seq<Segment>, b: seq<Segment>)
    ensures Render(a + b) == Render(a) + Render(b)
    decreases |b|
  {
    if b == [] {
      assert a + b == a;
    } else {
      var front, last := b[..|b| - 1], b[|b| - 1];
      assert (a + b)[..|a + b| - 1] == a + front;
      assert (a + b)[|a + b| - 1] == last;
      RenderConcat(a, front);
      assert Render(a + b) == Render(a + front) + SegmentText(last);
      assert Render(b) == Render(front) + SegmentText(last);
    }
  }

  /** The literal text `toQueryParam` writes before each value: only
      `jobId` goes without a leading separator. */
  lemma SegmentPrefixes()
    ensures "jobId=" == Separator(JobIdKey) + JobIdKey + "="
    ensures "|userId=" == Separator(UserIdKey) + UserIdKey + "="
    ensures "|state=" == Separator(StateKey) + StateKey + "="
    ensures "|from=" == Separator(FromKey) + FromKey + "="
    ensures "|to=" == Separator(ToKey) + ToKey + "="
    ensures "|latest=" == Separator(LatestKey) + LatestKey + "="
  {
    assert UserIdKey[0] != JobIdKey[0];
    assert StateKey[0] != JobIdKey[0];
    assert FromKey[0] != JobIdKey[0];
    assert ToKey[0] != JobIdKey[0];
    assert LatestKey[0] != JobIdKey[0];
  }

  /** Appending the literal `prefix` (the separator, the key and `=`) and
      the value to the text of `segs` gives the text of one more segment. */
  lemma AppendSegment(text: string, segs: seq<Segment>, prefix: string, key: string, value: string)
    requires text == Render(segs)
    requires prefix == Separator(key) + key + "="
    ensures text + prefix + value == Render(segs + [Segment(key, value)])
  {
    assert (segs + [Segment(key, value)])[..|segs|] == segs;
  }

  /** `toQueryParam`: append the segment of each present field to a string
      builder, in field order. */
  method ToQueryParam(f: JobFilter) returns (s: string)
    ensures s == Encode(f)
  {
    SegmentPrefixes();
    var builder := "";
    ghost var written: seq<Segment> := [];
    if f.jobId.Some? {
      AppendSegment(builder, written, "jobId=", JobIdKey, LongToString(f.jobId.value));
      builder := builder + "jobId=" + LongToString(f.jobId.value);
    } else {
      assert written + [] == written;
    }
    written := written + OptionalSegment(f.jobId.Some?, JobIdKey, LongText(f.jobId));
    if f.userId.Some? {
      AppendSegment(builder, written, "|userId=", UserIdKey, LongToString(f.userId.value));
      builder := builder + "|userId=" + LongToString(f.userId.value);
    } else {
      assert written + [] == written;
    }
    written := written + OptionalSegment(f.userId.Some?, UserIdKey, LongText(f.userId));
    if f.state.Some? {
      AppendSegment(builder, written, "|state=", StateKey, f.state.value);
      builder := builder + "|state=" + f.state.value;
    } else {
      assert written + [] == written;
    }
    written := written + OptionalSegment(f.state.Some?, StateKey, StateText(f.state));
    if f.from.Some? {
      AppendSegment(builder, written, "|from=", FromKey, LongToString(f.from.value));
      builder := builder + "|from=" + LongToString(f.from.value);
    } else {
      assert written + [] == written;
    }
    written := written + OptionalSegment(f.from.Some?, FromKey, LongText(f.from));
    if f.to.Some? {
      AppendSegment(builder, written, "|to=", ToKey, LongToString(f.to.value));
      builder := builder + "|to=" + LongToString(f.to.value);
    } else {
      assert written + [] == written;
    }
    written := written + OptionalSegment(f.to.Some?, ToKey, LongText(f.to));
    if f.to.Some? {
      AppendSegment(builder, written, "|latest=", LatestKey, BooleanToString(f.latest));
      builder := builder + "|latest=" + BooleanToString(f.latest);
    } else {
      assert written + [] == written;
    }
    written := written + OptionalSegment(f.to.Some?, LatestKey, BooleanToString(f.latest));
    assert [] + OptionalSegment(f.jobId.Some?, JobIdKey, LongText(f.jobId))
           == OptionalSegment(f.jobId.Some?, JobIdKey, LongText(f.jobId));
    s := builder;
  }

  /** The key and value that `part.split("=")` yields when it has more than
      one element: the text before the first `=` and the text up to the
      next one. */
  function Entry(part: string): Option<(string, string)> {
    var data := Split(part, '=');
    if |data| > 1 then Some((data[0], data[1])) else None
  }

  /** The map the string constructor fills from the parts, a later `put` of
      a key replacing an earlier one. */
  function CollectParams(parts: seq<string>): map<string, string>
    decreases |parts|
  {
    if parts == [] then map[]
    else
      var params := CollectParams(parts[..|parts| - 1]);
      match Entry(parts[|parts| - 1])
      case None => params
      case Some((key, value)) => params[key := value]
  }

  /** The parameter loop of the string constructor. */
  method CollectParamsLoop(parts: seq<string>) returns (params: map<string, string>)
    ensures params == CollectParams(parts)
  {
    params := map[];
    for i := 0 to |parts|
      invariant params == CollectParams(parts[..i])
    {
      var data := Split(parts[i], '=');
      if |data| > 1 {
        params := params[data[0] := data[1]];
      }
      assert parts[..i + 1][..i] == parts[..i];
    }
    assert parts[..|parts|] == parts;
  }

  /** `Long.valueOf` of the value under `key`, or absent when there is none. */
  function LongParam(params: map<string, string>, key: string): Result<Option<Long>, NumberFormatException> {
    if key in params then
      var n :- ParseLong(params[key]);
      Success(Some(n))
    else
      Success(None)
  }

  /** Reading the filter back out of the map, field by field in declaration
      order; the first numeric value that does not parse is the exception
      the constructor throws. */
  function FromParams(params: map<string, string>): Result<JobFilter, NumberFormatException> {
    var jobId :- LongParam(params, JobIdKey);
    var userId :- LongParam(params, UserIdKey);
    var state := if StateKey in params then Some(params[StateKey]) else None;
    var from :- LongParam(params, FromKey);
    var to :- LongParam(params, ToKey);
    var latest := if LatestKey in params then Some(BooleanValueOf(params[LatestKey])) else None;
    Success(JobFilter(jobId, userId, state, from, to, latest))
  }

  /** Parts of at most one character never hold a key and a value. */
  lemma {:induction false} ShortPartsCollectNothing(parts: seq<string>)
    requires forall i :: 0 <= i < |parts| ==> |parts[i]| <= 1
    ensures CollectParams(parts) == map[]
    decreases |parts|
  {
    if parts != [] {
      var last := parts[|parts| - 1];
      ShortPartsCollectNothing(parts[..|parts| - 1]);
      if '=' in last {
        assert last == "=";
        assert Pieces(last, '=') == ["", ""];
      }
    }
  }

  /** What the string constructor as written does with any text: cut it
      with the regular expression `|` and read the filter from the parts. */
  function ParseAsWritten(queryString: string): Result<JobFilter, NumberFormatException> {
    FromParams(CollectParams(SplitEmptyAlternation(queryString)))
  }

  /** The string constructor as written: `split("|")` cuts the input into
      single characters, so no part holds a key and a value and the filter
      comes back with every field absent, whatever the input. */
  method ParseQueryString(queryString: string) returns (r: Result<JobFilter, NumberFormatException>)
    ensures r == ParseAsWritten(queryString)
    ensures r == Success(EmptyFilter)
  {
    var parts := SplitEmptyAlternation(queryString);
    var params := CollectParamsLoop(parts);
    ShortPartsCollectNothing(parts);
    r := FromParams(params);
  }

  /** The string constructor as documented: parts separated by the `|`
      character. */
  function Decode(queryString: string): Result<JobFilter, NumberFormatException> {
    FromParams(CollectParams(Split(queryString, '|')))
  }

  method ParseQueryStringDocumented(queryString: string) returns (r: Result<JobFilter, NumberFormatException>)
    ensures r == Decode(queryString)
  {
    var parts := Split(queryString, '|');
    var params := CollectParamsLoop(parts);
    r := FromParams(params);
  }
}
