/**
 * The pure part of the worker's fetch listener: the two guards that decline a
 * request, the choice between the range branch and cache-or-fetch, the parse
 * of `Range: bytes=<digits>-` and the 206 response built from a whole body.
 */
module Router {
  import opened Wrappers
  import opened JsValues
  import opened Http

  /** Why the listener returns without answering. */
  datatype Declined = OnlyIfCachedNotSameOrigin | NotGet

  datatype Route =
    | PassThrough(why: Declined)
    | RangeRequest(header: string)
    | CacheOrFetch

  /** `event.request.headers.get('range')`: a string, or `null` when absent. */
  function RangeHeader(req: Request): (v: JsValue)
    ensures v == Null <==> req.range.None?
    ensures Truthy(v) <==> req.range.Some? && req.range.value != ""
  {
    match req.range
    case None => Null
    case Some(h) => String(h)
  }

  /**
   * The listener's tests, in source order: the only-if-cached guard, then the
   * method guard, then whether the `range` header is truthy.
   */
  function Classify(req: Request): (r: Route)
    ensures r == PassThrough(OnlyIfCachedNotSameOrigin) <==>
              req.cache == "only-if-cached" && req.mode != "same-origin"
    ensures r == PassThrough(NotGet) <==>
              !(req.cache == "only-if-cached" && req.mode != "same-origin") && req.httpMethod != "GET"
    ensures r.RangeRequest? <==>
              !r.PassThrough? && req.range.Some? && req.range.value != ""
    ensures r.RangeRequest? ==> req.range == Some(r.header)
  {
    if req.cache == "only-if-cached" && req.mode != "same-origin" then PassThrough(OnlyIfCachedNotSameOrigin)
    else if req.httpMethod != "GET" then PassThrough(NotGet)
    else if Truthy(RangeHeader(req)) then RangeRequest(req.range.value)
    else CacheOrFetch
  }

  /** `h` is the whole of `bytes=`, the digit string `digits`, and `-`. */
  predicate MatchesRangePattern(h: string, digits: string) {
    |digits| > 0 && AllDigits(digits) && h == "bytes=" + digits + "-"
  }

  /**
   * `Number(/^bytes=(\d+)-$/g.exec(h)[1])`: the start offset when the whole
   * header matches, None where `exec` returns null and indexing it throws.
   */
  function ParseRange(h: string): (r: Option<nat>)
    ensures r.Some? <==> exists d :: MatchesRangePattern(h, d)
    ensures forall d :: MatchesRangePattern(h, d) ==> r == Some(DecimalValue(d))
  {
    if 7 < |h| && h[..6] == "bytes=" && h[|h| - 1] == '-' && AllDigits(h[6..|h| - 1]) then
      var digits := h[6..|h| - 1];
      assert h == "bytes=" + digits + "-";
      assert MatchesRangePattern(h, digits);
      Some(DecimalValue(digits))
    else None
  }

  /** The header a client sends to ask for everything from `pos` on. */
  lemma RangeHeaderRoundTrip(pos: nat)
    ensures ParseRange("bytes=" + NatToString(pos) + "-") == Some(pos)
  {
  }

  /** Closed ranges, suffix ranges, multiple ranges and other units are all refused. */
  lemma ParseRangeRejectsOtherForms()
    ensures ParseRange("bytes=0-499") == None
    ensures ParseRange("bytes=-500") == None
    ensures ParseRange("bytes=0-,5-") == None
    ensures ParseRange("bytes=-") == None
    ensures ParseRange("items=5-") == None
  {
    var multi := "bytes=0-,5-";
    assert multi[6..|multi| - 1] == "0-,5" && !IsDigit("0-,5"[1]);
    var units := "items=5-";
    assert units[..6][0] != "bytes="[0];
  }

  /** `buffer.slice(pos)`: the bytes from `pos` to the end, none when `pos` is at or past the end. */
  function SliceFrom(buffer: seq<byte>, pos: nat): (r: seq<byte>)
    ensures |r| == if pos < |buffer| then |buffer| - pos else 0
    ensures forall i :: 0 <= i < |r| ==> r[i] == buffer[pos + i]
  {
    if pos < |buffer| then buffer[pos..] else []
  }

  /** The position of the first `c` in `s`, or `|s|` when there is none. */
  function IndexOf(s: string, c: char): (k: nat)
    ensures k <= |s|
    ensures forall i :: 0 <= i < k ==> s[i] != c
    ensures k < |s| ==> s[k] == c
  {
    if s == [] || s[0] == c then 0 else 1 + IndexOf(s[1..], c)
  }

  /** An integer's decimal text, with a leading `-` when negative. */
  function SignedDecimal(t: string): Option<int> {
    if |t| > 0 && AllDigits(t) then Some(DecimalValue(t))
    else if |t| > 1 && t[0] == '-' && AllDigits(t[1..]) then Some(0 - DecimalValue(t[1..]))
    else None
  }

  /**
   * Reads a `Content-Range` value `bytes <first>-<last>/<complete>` back into
   * its three numbers (RFC 7233 section 4.2), also accepting the negative
   * `last` this worker writes for an empty body.
   */
  function ParseContentRange(v: string): Option<(nat, int, nat)> {
    if |v| < 6 || v[..6] != "bytes " then None else ParseRangeSpec(v[6..])
  }

  /** `<first>-<last>/<complete>`, split at the first `-`. */
  function ParseRangeSpec(spec: string): Option<(nat, int, nat)> {
    var i := IndexOf(spec, '-');
    if i == |spec| || |spec[..i]| == 0 || !AllDigits(spec[..i]) then None
    else
      match ParseLastAndLength(spec[i + 1..])
      case None => None
      case Some((last, complete)) => Some((DecimalValue(spec[..i]), last, complete))
  }

  /** `<last>/<complete>`, split at the first `/`. */
  function ParseLastAndLength(t: string): Option<(int, nat)> {
    var j := IndexOf(t, '/');
    if j == |t| || SignedDecimal(t[..j]).None? || |t[j + 1..]| == 0 || !AllDigits(t[j + 1..]) then None
    else Some((SignedDecimal(t[..j]).value, DecimalValue(t[j + 1..])))
  }

  /** Splitting `x + [c] + y` at its first `c` gives back `x` and `y` when `x` holds no `c`. */
  lemma IndexOfSplit(x: string, c: char, y: string)
    requires c !in x
    ensures IndexOf(x + [c] + y, c) == |x|
    ensures (x + [c] + y)[..|x|] == x && (x + [c] + y)[|x| + 1..] == y
  {
    assert (x + [c] + y)[|x|] == c;
  }

  /** `<last>/<complete>` assembled from its parts reads back as their numbers. */
  lemma LastAndLengthAssembled(b: string, c: string)
    requires |c| > 0 && AllDigits(c) && '/' !in b && SignedDecimal(b).Some?
    ensures ParseLastAndLength(b + "/" + c) == Some((SignedDecimal(b).value, DecimalValue(c)))
  {
    IndexOfSplit(b, '/', c);
  }

  /** `<first>-<rest>` assembled from its parts reads back as `first` and what `rest` reads as. */
  lemma RangeSpecAssembled(a: string, tail: string)
    requires |a| > 0 && AllDigits(a) && '-' !in a && ParseLastAndLength(tail).Some?
    ensures ParseRangeSpec(a + "-" + tail) ==
              Some((DecimalValue(a), ParseLastAndLength(tail).value.0, ParseLastAndLength(tail).value.1))
  {
    IndexOfSplit(a, '-', tail);
  }

  /** A value assembled from a start, an end and a length reads back as those three numbers. */
  lemma ParseAssembled(a: string, b: string, c: string)
    requires |a| > 0 && AllDigits(a) && |c| > 0 && AllDigits(c)
    requires '-' !in a && '/' !in b && SignedDecimal(b).Some?
    ensures ParseContentRange("bytes " + a + "-" + b + "/" + c) ==
              Some((DecimalValue(a), SignedDecimal(b).value, DecimalValue(c)))
  {
    var tail := b + "/" + c;
    LastAndLengthAssembled(b, c);
    RangeSpecAssembled(a, tail);
    UnitPrefix(a + "-" + tail);
    assert "bytes " + a + "-" + b + "/" + c == "bytes " + (a + "-" + tail) by { SeqAssoc(a, b, c); }
  }

  /** The assembled value regrouped as the unit followed by the range. */
  lemma SeqAssoc(a: string, b: string, c: string)
    ensures "bytes " + a + "-" + b + "/" + c == "bytes " + (a + "-" + (b + "/" + c))
  {
  }

  /** After the unit `bytes `, the rest of the value is read as the range. */
  lemma UnitPrefix(spec: string)
    ensures ParseContentRange("bytes " + spec) == ParseRangeSpec(spec)
  {
    assert ("bytes " + spec)[..6] == "bytes " && ("bytes " + spec)[6..] == spec;
  }

  /** `'bytes ' + pos + '-' + (length - 1) + '/' + length`: the `Content-Range` value of the 206 response. */
  function ContentRange(pos: nat, length: nat): string {
    "bytes " + NatToString(pos) + "-" + IntToString(length - 1) + "/" + NatToString(length)
  }

  /**
   * The `Content-Range` text reads back as `pos`, `length - 1` and `length`; so
   * it determines both the offset and the length.
   */
  lemma ContentRangeReadsBack(pos: nat, length: nat)
    ensures ParseContentRange(ContentRange(pos, length)) == Some((pos, length - 1, length))
  {
    var a, b, c := NatToString(pos), IntToString(length - 1), NatToString(length);
    assert '-' !in a by { assert !IsDigit('-'); }
    assert '/' !in b by {
      if length == 0 {
        assert b == [b[0]] + b[1..];
      }
    }
    assert SignedDecimal(b) == Some(length - 1) by {
      if length == 0 {
        assert !IsDigit(b[0]);
      }
    }
    ParseAssembled(a, b, c);
  }

  /** The 206 response the range branch builds from the whole body `buffer`. */
  function PartialContent(buffer: seq<byte>, pos: nat): (r: Response)
    ensures r.status == 206 && r.statusText == "Partial Content"
    ensures r.headers == [("Content-Range", ContentRange(pos, |buffer|))]
    ensures |r.body| == if pos < |buffer| then |buffer| - pos else 0
    ensures forall i :: 0 <= i < |r.body| ==> r.body[i] == buffer[pos + i]
  {
    Response(206, "Partial Content", [("Content-Range", ContentRange(pos, |buffer|))], SliceFrom(buffer, pos))
  }

  /** A range from the middle of a 150-byte body. */
  lemma ContentRangeMiddle()
    ensures ContentRange(100, 150) == "bytes 100-149/150"
  {
  }

  /** A range over a whole 50-byte body. */
  lemma ContentRangeWhole()
    ensures ContentRange(0, 50) == "bytes 0-49/50"
  {
  }

  /** A start past the end of a 50-byte body: the first position exceeds the last, outside RFC 7233's byte-range-resp form. */
  lemma ContentRangePastEnd()
    ensures ContentRange(60, 50) == "bytes 60-49/50"
  {
  }

  /** An empty body: the last position is written as -1. */
  lemma ContentRangeEmpty()
    ensures ContentRange(0, 0) == "bytes 0--1/0"
  {
  }

  /** A 50-byte body asked for from 0, from 100 and from 60. */
  lemma PartialContentExamples(buffer: seq<byte>)
    requires |buffer| == 50
    ensures PartialContent(buffer, 0).body == buffer
    ensures PartialContent(buffer, 100).body == []
    ensures PartialContent(buffer, 60).headers == [("Content-Range", "bytes 60-49/50")]
  {
    ContentRangePastEnd();
  }
}
