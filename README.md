# JobFilter codec

A Dafny model of `JobFilter`, the value the Eureka! Clinical service layer
uses to ask the ETL layer which jobs to report on. It also covers the
filter's text form, which travels as a single request parameter.

A filter has six optional criteria:

- `jobId` and `userId`, both `long`;
- `state`, a string;
- `from` and `to`, timestamps in milliseconds;
- `latest`, a flag.

`toQueryParam` writes `key=value` segments in a fixed order, each
introduced by `|` except `jobId`. It writes one segment for each present
criterion, except `latest`: that segment is written whenever `to` is
present, as `latest=null` if `latest` itself is absent. The string constructor
is meant to read such a text back. It cuts the text into parts, keeps the
key and value of each part in a map, and converts the values.

The model has six modules.

- `Wrappers`: `Option` and `Result`.
- `JavaConversions`: the Java library conversions the codec relies on:
  - `Long.toString`;
  - `Long.valueOf`, including its `NumberFormatException`;
  - `Boolean.valueOf`;
  - `String.valueOf` of a `Boolean` that may be null.
- `JavaSplit`: `String.split` for the two patterns the constructor uses. `"="` is a literal character. `"|"` is a regular expression, an empty alternation that matches the empty string at every position. This is split as JDK 8 and later do it, with no leading empty part.
- `JobFilterCodec`: the filter, the field constructor, and `toQueryParam` as an imperative method. It also has the string constructor in two forms:
  - `ParseQueryString` splits exactly as written;
  - `ParseQueryStringDocumented` splits at the `|` character, as the comment on the constructor describes.

  Each is a loop that fills a map, followed by the read-back.
- `FilterRoundTrip` and `FilterProperties`: what the text form guarantees,
  including the exact set of filters that survive a round trip.

Java `null` is `None`. A `Date` is modelled by its `getTime()` value, a
`long`. The getters are the datatype's field selectors.

The source and its documentation disagree in one place. The constructor's
comment promises pipe-delimited parsing, but the code passes `"|"` to
`split`, which takes a regular expression. The model follows the code in
`ParseQueryString`, and records the discrepancy under Findings.

## Model

| member | source | states |
|---|---|---|
| JobFilterCodec.Create | src/main/java/org/eurekaclinical/eureka/client/comm/JobFilter.java:69-79 | the field constructor accepts any combination of absent criteria and keeps every criterion exactly as given |
| JavaConversions.LongRoundTrip | src/main/java/org/eurekaclinical/eureka/client/comm/JobFilter.java:102-110 | `Long.valueOf` reads back every `long` that `append` writes: `ParseLong(LongToString(n)) == n` for the whole 64-bit range, negatives included |
| JavaConversions.LongToStringInjective | src/main/java/org/eurekaclinical/eureka/client/comm/JobFilter.java:166-180 | two different numbers never print the same text |
| JavaConversions.ParseLong | src/main/java/org/eurekaclinical/eureka/client/comm/JobFilter.java:102-110 | a failure carries the rejected input; a success means an optional sign followed by at least one decimal digit, and its value is the signed decimal value of those digits |
| JavaConversions.ParseLongAccepts | src/main/java/org/eurekaclinical/eureka/client/comm/JobFilter.java:102-110 | an optional sign, at least one decimal digit and a value within the `long` range is always accepted, so `ParseLong` accepts exactly those inputs |
| JavaConversions.ParseLongRejectsNonDigit | src/main/java/org/eurekaclinical/eureka/client/comm/JobFilter.java:102-110 | any character that is not a digit, apart from a leading sign, makes the conversion throw `NumberFormatException` with the input |
| JavaConversions.BooleanRoundTrip | src/main/java/org/eurekaclinical/eureka/client/comm/JobFilter.java:111-112 | a written flag reads back as itself; a written null (`latest=null`) reads back as false |
| JavaConversions.BooleanValueOf | src/main/java/org/eurekaclinical/eureka/client/comm/JobFilter.java:111-112 | `latest` is true exactly when its text has four letters reading `t`, `r`, `u`, `e` ignoring case; FilterProperties.LatestConversion and JavaConversions.BooleanRoundTrip state what this means for the filter |
| JavaSplit.JoinPieces | src/main/java/org/eurekaclinical/eureka/client/comm/JobFilter.java:97 | cutting at a character and joining at it again gives back the input |
| JavaSplit.Split | src/main/java/org/eurekaclinical/eureka/client/comm/JobFilter.java:97 | no element of `split` on a character contains that character |
| JavaSplit.SplitEmptyAlternation | src/main/java/org/eurekaclinical/eureka/client/comm/JobFilter.java:95 | `split("\|")` gives one part per character (one empty part for the empty input), each at most one character, and the parts concatenate to the input |
| JavaSplit.StripTrailingEmpty | src/main/java/org/eurekaclinical/eureka/client/comm/JobFilter.java:97 | `split` only drops empty strings, and only from the end, so the result is a prefix of the pieces that does not end with an empty string |
| JobFilterCodec.KeysDistinct | src/main/java/org/eurekaclinical/eureka/client/comm/JobFilter.java:102-112 | the six recognised keys are pairwise different |
| JobFilterCodec.RenderConcat | src/main/java/org/eurekaclinical/eureka/client/comm/JobFilter.java:164-186 | the text of a list of segments is the text of its first half followed by the text of its second half |
| JobFilterCodec.ToQueryParam | src/main/java/org/eurekaclinical/eureka/client/comm/JobFilter.java:164-186 | the builder loop writes exactly `Encode(f)`, the rendering of the filter's segments |
| JobFilterCodec.CollectParamsLoop | src/main/java/org/eurekaclinical/eureka/client/comm/JobFilter.java:94-101 | the loop leaves exactly `CollectParams(parts)` in the map: the entry of each part in turn, a later key replacing an earlier one |
| JobFilterCodec.ShortPartsCollectNothing | src/main/java/org/eurekaclinical/eureka/client/comm/JobFilter.java:95-101 | parts of at most one character never hold a key and a value, so the map stays empty |
| JobFilterCodec.ParseQueryString | src/main/java/org/eurekaclinical/eureka/client/comm/JobFilter.java:93-113 | the constructor as written returns the filter with every criterion absent, whatever the input |
| JobFilterCodec.ParseQueryStringDocumented | src/main/java/org/eurekaclinical/eureka/client/comm/JobFilter.java:85-113 | the constructor as documented (split at the `\|` character) computes `Decode` |
| FilterRoundTrip.SplitOfRender | src/main/java/org/eurekaclinical/eureka/client/comm/JobFilter.java:85-95 | splitting a rendered text at `\|` gives one `key=value` part per segment, after an empty part when the text does not start with `jobId` |
| FilterRoundTrip.EntryOfBody | src/main/java/org/eurekaclinical/eureka/client/comm/JobFilter.java:97-100 | a `key=value` part with clean key and value gives that entry, or none when the value is empty |
| FilterRoundTrip.CollectOfRender | src/main/java/org/eurekaclinical/eureka/client/comm/JobFilter.java:94-101 | parsing rendered well-formed segments fills the map with every segment whose value is not empty |
| FilterRoundTrip.SegmentsWellFormed | src/main/java/org/eurekaclinical/eureka/client/comm/JobFilter.java:164-186 | when `state` holds neither `\|` nor `=`, every segment `toQueryParam` writes has clean keys and values, and only the first may be `jobId` |
| FilterRoundTrip.FromParamsOf | src/main/java/org/eurekaclinical/eureka/client/comm/JobFilter.java:102-112 | reading the map of a filter's segments gives back the normalised filter: an empty `state` is dropped, and `latest` is present exactly when `to` is, true only if it was true |
| FilterRoundTrip.DecodeEncode | src/main/java/org/eurekaclinical/eureka/client/comm/JobFilter.java:157-186 | for a clean `state`, decoding the text form gives the normalised filter |
| FilterRoundTrip.DecodedStateClean | src/main/java/org/eurekaclinical/eureka/client/comm/JobFilter.java:95-106 | a decoded `state` never contains `\|` or `=`; it can be empty, because a part `state==x` stores the empty text |
| FilterRoundTrip.RoundTrip | src/main/java/org/eurekaclinical/eureka/client/comm/JobFilter.java:157-186 | decoding the text form gives back the filter exactly when `state` is absent or non-empty without `\|` or `=`, and `latest` is present exactly when `to` is |
| FilterProperties.SegmentsInKeyOrder | src/main/java/org/eurekaclinical/eureka/client/comm/JobFilter.java:164-186 | segments are written in the order jobId, userId, state, from, to, latest, with each key at most once and no other key |
| FilterProperties.SegmentKeys | src/main/java/org/eurekaclinical/eureka/client/comm/JobFilter.java:164-186 | each key is written exactly when its criterion is present, except `latest`, which is written exactly when `to` is present |
| FilterProperties.EncodeEmpty | src/main/java/org/eurekaclinical/eureka/client/comm/JobFilter.java:164-186 | the text is empty exactly when jobId, userId, state, from and to are all absent |
| FilterProperties.LeadingJobId | src/main/java/org/eurekaclinical/eureka/client/comm/JobFilter.java:166-168 | with `jobId` present, the text opens with `jobId=` and the number, with no separator |
| FilterProperties.LeadingSeparator | src/main/java/org/eurekaclinical/eureka/client/comm/JobFilter.java:169-183 | without `jobId`, a non-empty text opens with `\|` |
| FilterProperties.OnlyUserId | src/main/java/org/eurekaclinical/eureka/client/comm/JobFilter.java:169-171 | a filter with only `userId` (and perhaps `latest`) is written as `\|userId=` and the number |
| FilterProperties.LatestSegmentText | src/main/java/org/eurekaclinical/eureka/client/comm/JobFilter.java:178-183 | with `to` present, the text ends with the `latest` segment, which is `\|latest=null` when `latest` is absent |
| FilterProperties.PartWithoutEqualsIgnored | src/main/java/org/eurekaclinical/eureka/client/comm/JobFilter.java:97-100 | a part without `=` leaves the map unchanged |
| FilterProperties.EmptyValueIgnored | src/main/java/org/eurekaclinical/eureka/client/comm/JobFilter.java:97-100 | a part `key=` with an empty value leaves the map unchanged |
| FilterProperties.ValueUpToSecondEquals | src/main/java/org/eurekaclinical/eureka/client/comm/JobFilter.java:97-100 | only the text between the first and second `=` is stored under the key |
| FilterProperties.EmptyValueBetweenEquals | src/main/java/org/eurekaclinical/eureka/client/comm/JobFilter.java:97-100 | a part `key==tail` with a non-empty tail stores the empty text under the key; it is not ignored |
| FilterProperties.EmptyNumberThrows | src/main/java/org/eurekaclinical/eureka/client/comm/JobFilter.java:97-103 | the empty value stored by `jobId==5` reaches `Long.valueOf`, and reading the filter throws `NumberFormatException` for the empty text |
| FilterProperties.LaterPartWins | src/main/java/org/eurekaclinical/eureka/client/comm/JobFilter.java:96-100 | the last part that holds a key decides its value, whatever parts came before |
| FilterProperties.UnrecognisedKeyIgnored | src/main/java/org/eurekaclinical/eureka/client/comm/JobFilter.java:102-112 | an entry under any key other than the six recognised ones does not affect the filter |
| FilterProperties.FromParamsFailure | src/main/java/org/eurekaclinical/eureka/client/comm/JobFilter.java:102-110 | the constructor throws exactly when jobId, userId, from or to holds something that is not a decimal `long`; a bad jobId is the one reported |
| FilterProperties.LatestConversion | src/main/java/org/eurekaclinical/eureka/client/comm/JobFilter.java:111-112 | `latest` is absent exactly when its key is, and true exactly when its text is "true" ignoring case |
| FilterProperties.DocumentedExampleLost | src/main/java/org/eurekaclinical/eureka/client/comm/JobFilter.java:85-101 | the constructor as written collects no entry from the example in its own documentation |
| FilterProperties.AsWrittenLosesEveryFilter | src/main/java/org/eurekaclinical/eureka/client/comm/JobFilter.java:93-113 | every non-empty filter that the text form can carry comes back empty from the constructor as written, but intact from the documented split |

## Left out

- `EurekaClient.java` is not part of this model. It is an HTTP client built on an external base class, and it does not use `JobFilter`.
- The string constructor's argument is taken to be non-null. In Java a null `queryString` throws `NullPointerException` at the `split` call; `ParseQueryString` and `ParseQueryStringDocumented` take a `string`, which cannot be null.
- The defensive `Date` copies in the constructor and in `getFrom`/`getTo` are not modelled: a timestamp is an immutable `long` here, so there is no aliasing to guard against.
- The `data[0] != null && data[1] != null` test adds nothing: `split` never yields null elements. `Entry` checks only the length.
- JavaConversions.ParseLong: accepts only the ASCII digits `0`-`9`. `Long.valueOf` also accepts other Unicode decimal digits, which never occur in text that `toQueryParam` writes.
- JavaConversions.BooleanValueOf: folds case for ASCII letters only. Only ASCII letters can compare equal to a letter of "true" under `equalsIgnoreCase`.
- Strings are sequences of characters. UTF-16 surrogate pairs are not treated specially, and `split` on a single character never cuts one.
- Java's general regular-expression engine is not modelled. Only the two patterns the constructor passes to `split` are.

## Findings

| source | as written | input that shows it | evidently intended | confidence | as-written member | corrected member |
|---|---|---|---|---|---|---|
| src/main/java/org/eurekaclinical/eureka/client/comm/JobFilter.java:95 | `queryString.split("\|")` is a regular expression that matches the empty string, so the text is cut into single characters and the filter always comes back empty | `jobId=1\|userId=1\|state=STARTED\|from=123456\|to=123456`, the example in the constructor's own documentation, or the text `toQueryParam` writes for any non-empty filter (FilterProperties.AsWrittenLosesEveryFilter) | split at the literal `\|` character, so that the constructor reads back what `toQueryParam` writes; proved for that split in FilterRoundTrip.RoundTrip | not executed | JobFilterCodec.ParseQueryString | JobFilterCodec.ParseQueryStringDocumented |
