/** connection_handler.cc: the query string of a request line is cut at '&' and '=', and its keys
  * and values are decoded. Strings are bytes. */
module QueryDecoder {
  import opened Options

  type Byte = bv8   // arithmetic on a char is modulo 256

  type Bytes = seq<Byte>

  // The largest size_t; no string is that long.
  const NPOS: nat := 0xFFFF_FFFF_FFFF_FFFF

  const PERCENT: Byte := 0x25
  const PLUS: Byte := 0x2B
  const SPACE: Byte := 0x20
  const EQUALS: Byte := 0x3D
  const AMPERSAND: Byte := 0x26
  const QUESTION: Byte := 0x3F

  // Letters of either case count on from 10, beyond 'f' too; any other byte counts from '0'.
  function HexToByte(c: Byte): Byte {
    if 0x61 <= c <= 0x7A then c - 0x61 + 10
    else if 0x41 <= c <= 0x5A then c - 0x41 + 10
    else c - 0x30
  }

  function HexStrToChar(hi: Byte, lo: Byte): Byte {
    HexToByte(hi) * 16 + HexToByte(lo)
  }

  // What `s` from `from` on stands for. An escape needs two more bytes, whatever they are.
  function Decode(s: Bytes, from: nat): (r: Option<Bytes>)
    requires from <= |s|
    decreases |s| - from
  {
    if from == |s| then Some([])
    else if s[from] == PERCENT then
      if from + 3 > |s| then None else After([HexStrToChar(s[from + 1], s[from + 2])], Decode(s, from + 3))
    else After([if s[from] == PLUS then SPACE else s[from]], Decode(s, from + 1))
  }

  function After(s: Bytes, r: Option<Bytes>): Option<Bytes> {
    if r.None? then None else Some(s + r.value)
  }

  lemma {:induction false} AfterAfter(s: Bytes, t: Bytes, r: Option<Bytes>)
    ensures After(s, After(t, r)) == After(s + t, r)
    ensures After([], r) == r && After(s, Some([])) == Some(s)
  {
    if r.Some? { assert s + (t + r.value) == s + t + r.value && [] + r.value == r.value; }
    assert s + [] == s;
  }

  // The scan comes to position `n`, and not past it in the middle of an escape.
  predicate Meets(s: Bytes, from: nat, n: nat)
    requires from <= n <= |s|
  {
    Decode(s[..n], from).Some?
  }

  // One step of the scan, in a string and in its beginnings.
  lemma {:induction false} MeetsNext(s: Bytes, from: nat, n: nat)
    requires from <= n <= |s|
    ensures Meets(s, from, n) <==>
            n == from || var next := if s[from] == PERCENT then from + 3 else from + 1; next <= n && Meets(s, next, n)
  {
    var p := s[..n];
    assert from < n ==> p[from] == s[from];
  }

  // Decoding fails if and only if the scan comes to an escape that the end of the string cuts.
  lemma {:induction false} FailsOnlyAtCut(s: Bytes, from: nat)
    requires from <= |s|
    ensures Decode(s, from).None? <==> exists n :: from <= n < |s| < n + 3 && s[n] == PERCENT && Meets(s, from, n)
    decreases |s| - from
  {
    if from < |s| {
      MeetsNext(s, from, from);
      var next := if s[from] == PERCENT then from + 3 else from + 1;
      if next <= |s| {
        FailsOnlyAtCut(s, next);
        forall n | next <= n < |s| ensures Meets(s, from, n) <==> Meets(s, next, n) { MeetsNext(s, from, n); }
        forall n | from < n < next && n < |s| ensures !Meets(s, from, n) { MeetsNext(s, from, n); }
      }
    }
  }

  // The write index never passes the read index.
  method UrlDecode(s: Bytes) returns (ok: bool, out: Bytes)
    ensures Decode(s, 0) == if ok then Some(out) else None
    ensures !ok <==> exists n :: 0 <= n < |s| < n + 3 && s[n] == PERCENT && Meets(s, 0, n)
    ensures |out| <= |s|
  {
    FailsOnlyAtCut(s, 0);
    var pos := 0;
    var buff := new Byte[|s|];
    var i := 0;
    AfterAfter([], [], Decode(s, 0));
    while i < |s|
      invariant pos <= i <= |s| == buff.Length
      invariant Decode(s, 0) == After(buff[..pos], Decode(s, i))
    {
      ghost var done := buff[..pos];
      if s[i] == PERCENT {
        if i + 3 <= |s| {
          buff[pos] := HexStrToChar(s[i + 1], s[i + 2]);
          i := i + 2;
        } else {
          return false, [];
        }
      } else if s[i] == PLUS {
        buff[pos] := SPACE;
      } else {
        buff[pos] := s[i];
      }
      i := i + 1;
      pos := pos + 1;
      AfterAfter(done, [buff[pos - 1]], Decode(s, i));
      assert buff[..pos] == done + [buff[pos - 1]];
    }
    AfterAfter(buff[..pos], [], Some([]));
    return true, buff[..pos];
  }

  // ---- parameters ------------------------------------------------------------------------------

  type Params = map<Bytes, Bytes>

  // The first place of `c` from `from` on, or the length.
  function IndexFrom(s: Bytes, c: Byte, from: nat): (i: nat)
    requires from <= |s|
    ensures from <= i <= |s|
    decreases |s| - from
  {
    if from == |s| || s[from] == c then from else IndexFrom(s, c, from + 1)
  }

  // The string's own find.
  function Find(s: Bytes, c: Byte, from: nat): nat
    requires from <= |s|
  {
    var i := IndexFrom(s, c, from);
    if i == |s| then NPOS else i
  }

  // A parameter without '=', or with '=' at its end, has an empty value; one that does not
  // decode is ignored.
  function WithParam(params: Params, param: Bytes): Params {
    var split := IndexFrom(param, EQUALS, 0);
    var key := Decode(param[..split], 0);
    var value := if split < |param| then Decode(param[split + 1..], 0) else Some([]);
    if key.Some? && value.Some? then params[key.value := value.value] else params
  }

  // A query as it is cut: its parameters, at least one.
  datatype Query = Last(param: Bytes) | More(param: Bytes, rest: Query)

  // The query that begins at `from`.
  function QueryFrom(url: Bytes, from: nat): Query
    requires from <= |url|
    decreases |url| - from
  {
    var end := IndexFrom(url, AMPERSAND, from);
    if end == |url| then Last(url[from..]) else More(url[from..end], QueryFrom(url, end + 1))
  }

  function WithQuery(params: Params, query: Query): Params
    decreases query
  {
    match query
    case Last(param) => WithParam(params, param)
    case More(param, rest) => WithQuery(WithParam(params, param), rest)
  }

  // What the query that begins at `from` makes of the parameters.
  function WithRest(params: Params, url: Bytes, from: nat): Params
    requires from <= |url|
  {
    WithQuery(params, QueryFrom(url, from))
  }

  lemma {:induction false} QueryGoesOn(params: Params, after: Params, url: Bytes, curr: nat, end: nat)
    requires curr <= end < |url| && end == IndexFrom(url, AMPERSAND, curr)
    requires after == WithParam(params, url[curr..end])
    ensures WithRest(params, url, curr) == WithRest(after, url, end + 1)
  {
  }

  lemma {:induction false} QueryEnds(params: Params, after: Params, url: Bytes, curr: nat)
    requires curr <= |url| == IndexFrom(url, AMPERSAND, curr)
    requires after == WithParam(params, url[curr..])
    ensures WithRest(params, url, curr) == after
  {
  }

  // What comes before the first '?', and what the rest adds to the parameters.
  function PathOf(url: Bytes): Bytes {
    url[..IndexFrom(url, QUESTION, 0)]
  }

  function ParamsOf(params: Params, url: Bytes): Params {
    var pos := IndexFrom(url, QUESTION, 0);
    if pos == |url| then params else WithRest(params, url, pos + 1)
  }

  lemma {:induction false} FirstPlace(s: Bytes, c: Byte, from: nat)
    requires from <= |s|
    ensures var i := IndexFrom(s, c, from); c !in s[from..i] && (i < |s| ==> s[i] == c)
    decreases |s| - from
  {
    if from < |s| && s[from] != c {
      FirstPlace(s, c, from + 1);
      var i := IndexFrom(s, c, from);
      assert s[from..i] == [s[from]] + s[from + 1..i];
    }
  }

  // The path is the whole url if that has no '?', which then adds no parameter; otherwise it is
  // what comes before the first one.
  lemma {:induction false} PathIsPrefix(params: Params, url: Bytes)
    ensures QUESTION !in PathOf(url) && PathOf(url) <= url
    ensures PathOf(url) == url || (|PathOf(url)| < |url| && url[|PathOf(url)|] == QUESTION)
    ensures QUESTION !in url <==> PathOf(url) == url
    ensures QUESTION !in url ==> ParamsOf(params, url) == params
  {
    FirstPlace(url, QUESTION, 0);
    var i := IndexFrom(url, QUESTION, 0);
    assert url[0..i] == url[..i];
    if i == |url| { assert url[..i] == url; }
  }

  class Request {
    const url: Bytes
    var queryParameters: Params

    constructor (url: Bytes)
      ensures this.url == url && queryParameters == map[]
    {
      this.url := url;
      queryParameters := map[];
    }

    method AddParam(param: Bytes)
      requires |param| < NPOS
      modifies this`queryParameters
      ensures queryParameters == WithParam(old(queryParameters), param)
    {
      var split := Find(param, EQUALS, 0);
      // size_t subtraction: the empty parameter gives the largest value
      if split >= (|param| - 1) % (NPOS + 1) {
        // substr(0, split) stops at the end of the string
        var head := if split < |param| then param[..split] else param;
        assert head == param[..IndexFrom(param, EQUALS, 0)];
        assert split < |param| ==> param[split + 1..] == [];
        var ok, key := UrlDecode(head);
        if ok {
          queryParameters := queryParameters[key := []];
        }
      } else {
        var okKey, key := UrlDecode(param[..split]);
        if okKey {
          var okValue, value := UrlDecode(param[split + 1..]);
          if okValue {
            queryParameters := queryParameters[key := value];
          }
        }
      }
    }

    method SetQueryParam() returns (path: Bytes)
      requires |url| < NPOS
      modifies this`queryParameters
      ensures path == PathOf(url) <= url && QUESTION !in path
      ensures path != url ==> |path| < |url| && url[|path|] == QUESTION
      ensures QUESTION !in url ==> path == url && queryParameters == old(queryParameters)
      ensures queryParameters == ParamsOf(old(queryParameters), url)
    {
      PathIsPrefix(queryParameters, url);
      var pos := Find(url, QUESTION, 0);
      if pos == NPOS {
        return url;
      }
      var curr := pos + 1;
      var endParam := Find(url, AMPERSAND, curr);
      ghost var all := WithRest(queryParameters, url, curr);
      while endParam != NPOS
        invariant curr <= |url| && endParam == Find(url, AMPERSAND, curr)
        invariant WithRest(queryParameters, url, curr) == all
        decreases |url| - curr
      {
        ghost var before := queryParameters;
        AddParam(url[curr..endParam]);
        QueryGoesOn(before, queryParameters, url, curr, endParam);
        curr := endParam + 1;
        endParam := Find(url, AMPERSAND, curr);
      }
      ghost var before := queryParameters;
      AddParam(url[curr..]);
      QueryEnds(before, queryParameters, url, curr);
      return url[..pos];
    }
  }

  // ---- round trip --------------------------------------------------------------------------------

  // One byte of a key or value and the way it is written: as itself, as '+' for a space, or
  // as an escape whose two digits may be of either case.
  datatype Token = Raw(b: Byte) | Plus | Escape(b: Byte, upperHi: bool, upperLo: bool)

  function Digit(v: Byte, upper: bool): Byte
    requires v < 16
  {
    if v < 10 then 0x30 + v else (if upper then 0x41 else 0x61) + (v - 10)
  }

  function Meaning(t: Token): Byte {
    match t
    case Raw(b) => b
    case Plus => SPACE
    case Escape(b, _, _) => b
  }

  function Spelling(t: Token): Bytes {
    match t
    case Raw(b) => [b]
    case Plus => [PLUS]
    case Escape(b, upperHi, upperLo) => [PERCENT, Digit(b >> 4, upperHi), Digit(b & 0x0F, upperLo)]
  }

  function Text(ts: seq<Token>): Bytes {
    if ts == [] then [] else [Meaning(ts[0])] + Text(ts[1..])
  }

  function Written(ts: seq<Token>): Bytes {
    if ts == [] then [] else Spelling(ts[0]) + Written(ts[1..])
  }

  // Bytes that mean something to the decoder are not written as themselves.
  predicate Clean(ts: seq<Token>, reserved: set<Byte>) {
    forall i :: 0 <= i < |ts| && ts[i].Raw? ==> ts[i].b !in reserved
  }

  function Reserved(): set<Byte> { {PERCENT, PLUS, AMPERSAND} }

  lemma {:induction false} DigitsUndone(b: Byte, upperHi: bool, upperLo: bool)
    ensures HexStrToChar(Digit(b >> 4, upperHi), Digit(b & 0x0F, upperLo)) == b
  {
  }

  // What the rest of `s` from `from` on stands for.
  function Rest(s: Bytes, from: nat): Option<Bytes>
    requires from <= |s|
  {
    Decode(s, from)
  }

  lemma {:induction false} DecodeToken(s: Bytes, from: nat, t: Token)
    requires t.Raw? ==> t.b !in {PERCENT, PLUS}
    requires from + |Spelling(t)| <= |s| && s[from..from + |Spelling(t)|] == Spelling(t)
    ensures Rest(s, from) == After([Meaning(t)], Rest(s, from + |Spelling(t)|))
  {
    var spelling := s[from..from + |Spelling(t)|];
    assert s[from] == spelling[0];
    if t.Escape? {
      assert s[from + 1] == spelling[1] && s[from + 2] == spelling[2];
      DigitsUndone(t.b, t.upperHi, t.upperLo);
    }
  }

  lemma {:induction false} Cut(s: Bytes, from: nat, a: Bytes, b: Bytes)
    requires from + |a + b| <= |s| && s[from..from + |a + b|] == a + b
    ensures s[from..from + |a|] == a && s[from + |a|..from + |a| + |b|] == b
  {
    assert a == s[from..from + |a + b|][..|a|] && b == s[from..from + |a + b|][|a|..];
  }

  lemma {:induction false} DecodeFirst(s: Bytes, from: nat, t: Token, rest: Bytes)
    requires t.Raw? ==> t.b !in {PERCENT, PLUS}
    requires from + |Spelling(t) + rest| <= |s| && s[from..from + |Spelling(t) + rest|] == Spelling(t) + rest
    ensures Rest(s, from) == After([Meaning(t)], Rest(s, from + |Spelling(t)|))
    ensures s[from + |Spelling(t)|..from + |Spelling(t)| + |rest|] == rest
  {
    Cut(s, from, Spelling(t), rest);
    DecodeToken(s, from, t);
  }

  lemma {:induction false} DecodeWritten(s: Bytes, from: nat, ts: seq<Token>, text: Bytes, written: Bytes)
    requires Clean(ts, {PERCENT, PLUS}) && text == Text(ts) && written == Written(ts)
    requires from + |written| <= |s| && s[from..from + |written|] == written
    ensures Rest(s, from) == After(text, Rest(s, from + |written|))
    decreases |ts|
  {
    if ts == [] {
      AfterAfter([], [], Rest(s, from));
    } else {
      var first, rest := Spelling(ts[0]), Written(ts[1..]);
      assert written == first + rest && text == [Meaning(ts[0])] + Text(ts[1..]);
      DecodeFirst(s, from, ts[0], rest);
      DecodeWritten(s, from + |first|, ts[1..], Text(ts[1..]), rest);
      AfterAfter([Meaning(ts[0])], Text(ts[1..]), Rest(s, from + |first| + |rest|));
    }
  }

  lemma {:induction false} WrittenAvoids(ts: seq<Token>, c: Byte)
    requires Clean(ts, {c}) && (c == AMPERSAND || c == EQUALS)
    ensures c !in Written(ts)
  {
    if ts != [] {
      WrittenAvoids(ts[1..], c);
      assert c !in Spelling(ts[0]);
    }
  }

  // A delimiter is found right after a stretch without it.
  lemma {:induction false} IndexAfter(s: Bytes, from: nat, end: nat, c: Byte)
    requires from <= end <= |s| && c !in s[from..end] && (end < |s| ==> s[end] == c)
    ensures IndexFrom(s, c, from) == end
    decreases end - from
  {
    if from < end {
      assert s[from] == s[from..end][0];
      assert s[from + 1..end] == s[from..end][1..];
      IndexAfter(s, from + 1, end, c);
    }
  }

  datatype Param = Param(key: seq<Token>, value: seq<Token>)

  predicate ParamOk(p: Param) {
    Clean(p.key, Reserved() + {EQUALS}) && Clean(p.value, Reserved())
  }

  function ParamWritten(p: Param): Bytes {
    Written(p.key) + [EQUALS] + Written(p.value)
  }

  function Writings(ps: seq<Param>): (ws: seq<Bytes>)
    ensures |ws| == |ps| && forall i :: 0 <= i < |ps| ==> ws[i] == ParamWritten(ps[i])
  {
    seq(|ps|, i requires 0 <= i < |ps| => ParamWritten(ps[i]))
  }

  function Joined(ws: seq<Bytes>): Bytes
    requires ws != []
  {
    if |ws| == 1 then ws[0] else ws[0] + [AMPERSAND] + Joined(ws[1..])
  }

  function QueryWritten(ps: seq<Param>): Bytes
    requires ps != []
  {
    Joined(Writings(ps))
  }

  // Later duplicates win.
  function Bound(params: Params, ps: seq<Param>): Params
    decreases |ps|
  {
    if ps == [] then params else Bound(params[Text(ps[0].key) := Text(ps[0].value)], ps[1..])
  }

  // Where a parameter is cut, and what its two parts decode to.
  lemma {:induction false} ParamParts(params: Params, key: Bytes, value: Bytes)
    requires EQUALS !in key
    ensures WithParam(params, key + [EQUALS] + value)
            == if Decode(key, 0).Some? && Decode(value, 0).Some?
               then params[Decode(key, 0).value := Decode(value, 0).value]
               else params
  {
    var s := key + [EQUALS] + value;
    assert s[..|key|] == s[0..|key|] == key && s[|key| + 1..] == value;
    IndexAfter(s, 0, |key|, EQUALS);
  }

  // A parameter without '=', the empty one too, has the empty value.
  lemma {:induction false} ParamWithoutEquals(params: Params, param: Bytes)
    requires EQUALS !in param
    ensures WithParam(params, param)
            == if Decode(param, 0).Some? then params[Decode(param, 0).value := []] else params
  {
    assert param[0..|param|] == param && param[..|param|] == param;
    IndexAfter(param, 0, |param|, EQUALS);
  }

  lemma {:induction false} WrittenDecodes(ts: seq<Token>)
    requires Clean(ts, {PERCENT, PLUS})
    ensures Decode(Written(ts), 0) == Some(Text(ts))
  {
    var s := Written(ts);
    assert s[0..|s|] == s;
    DecodeWritten(s, 0, ts, Text(ts), s);
    AfterAfter(Text(ts), [], Some([]));
  }

  lemma {:induction false} ParamRoundTrip(params: Params, p: Param)
    requires ParamOk(p)
    ensures WithParam(params, ParamWritten(p)) == params[Text(p.key) := Text(p.value)]
    ensures AMPERSAND !in ParamWritten(p)
  {
    WrittenAvoids(p.key, EQUALS);
    WrittenAvoids(p.key, AMPERSAND);
    WrittenAvoids(p.value, AMPERSAND);
    ParamParts(params, Written(p.key), Written(p.value));
    WrittenDecodes(p.key);
    WrittenDecodes(p.value);
  }

  function Parts(ws: seq<Bytes>): Query
    requires ws != []
  {
    if |ws| == 1 then Last(ws[0]) else More(ws[0], Parts(ws[1..]))
  }

  function CutFrom(url: Bytes, from: nat): Query
    requires from <= |url|
  {
    QueryFrom(url, from)
  }

  lemma {:induction false} CutLast(url: Bytes, from: nat, first: Bytes)
    requires from <= |url| && url[from..] == first && AMPERSAND !in first
    ensures CutFrom(url, from) == Last(first)
  {
    assert url[from..|url|] == first;
    IndexAfter(url, from, |url|, AMPERSAND);
  }

  lemma {:induction false} CutMore(url: Bytes, from: nat, first: Bytes, rest: Bytes)
    requires from <= |url| && url[from..] == first + [AMPERSAND] + rest && AMPERSAND !in first
    ensures from + |first| < |url| && url[from + |first| + 1..] == rest
    ensures CutFrom(url, from) == More(first, CutFrom(url, from + |first| + 1))
  {
    Slices(url, from, first, AMPERSAND, rest);
    IndexAfter(url, from, from + |first|, AMPERSAND);
  }

  lemma {:induction false} Slices(url: Bytes, from: nat, first: Bytes, c: Byte, rest: Bytes)
    requires from <= |url| && url[from..] == first + [c] + rest
    ensures from + |first| < |url| && url[from..from + |first|] == first && url[from + |first|] == c
    ensures url[from + |first| + 1..] == rest
  {
    var query := first + [c] + rest;
    assert url[from..from + |first|] == query[..|first|];
    assert url[from + |first|] == query[|first|];
    assert url[from + |first| + 1..] == query[|first| + 1..];
  }

  lemma {:induction false} QueryCut(url: Bytes, from: nat, ws: seq<Bytes>, joined: Bytes, query: Query)
    requires ws != [] && joined == Joined(ws) && query == Parts(ws)
    requires from <= |url| && url[from..] == joined && forall i :: 0 <= i < |ws| ==> AMPERSAND !in ws[i]
    ensures CutFrom(url, from) == query
    decreases |ws|
  {
    if |ws| == 1 {
      CutLast(url, from, ws[0]);
    } else {
      CutMore(url, from, ws[0], Joined(ws[1..]));
      QueryCut(url, from + |ws[0]| + 1, ws[1..], Joined(ws[1..]), Parts(ws[1..]));
    }
  }

  lemma {:induction false} PartsBound(params: Params, ps: seq<Param>)
    requires ps != [] && forall i :: 0 <= i < |ps| ==> ParamOk(ps[i])
    ensures WithQuery(params, Parts(Writings(ps))) == Bound(params, ps)
    decreases |ps|
  {
    ParamRoundTrip(params, ps[0]);
    if |ps| > 1 {
      PartsBound(params[Text(ps[0].key) := Text(ps[0].value)], ps[1..]);
      assert Writings(ps)[1..] == Writings(ps[1..]);
    }
  }

  // Parameters added one after the other.
  function AllParams(params: Params, ws: seq<Bytes>): Params
    decreases |ws|
  {
    if ws == [] then params else AllParams(WithParam(params, ws[0]), ws[1..])
  }

  lemma {:induction false} PartsAdded(params: Params, ws: seq<Bytes>)
    requires ws != []
    ensures WithQuery(params, Parts(ws)) == AllParams(params, ws)
    decreases |ws|
  {
    if |ws| > 1 {
      PartsAdded(WithParam(params, ws[0]), ws[1..]);
    } else {
      assert AllParams(WithParam(params, ws[0]), ws[1..]) == WithParam(params, ws[0]);
    }
  }

  // Whatever is between the '&'s of a query, parameters without '=' and empty ones included, is
  // added in turn. `ParamParts` and `ParamWithoutEquals` say what each one adds.
  lemma {:induction false} UrlIsParts(params: Params, path: Bytes, ws: seq<Bytes>)
    requires QUESTION !in path && ws != [] && forall i :: 0 <= i < |ws| ==> AMPERSAND !in ws[i]
    ensures var url := path + [QUESTION] + Joined(ws);
            PathOf(url) == path && ParamsOf(params, url) == AllParams(params, ws)
  {
    var url := path + [QUESTION] + Joined(ws);
    assert url[..|path|] == url[0..|path|] == path;
    IndexAfter(url, 0, |path|, QUESTION);
    assert url[|path| + 1..] == Joined(ws);
    QueryCut(url, |path| + 1, ws, Joined(ws), Parts(ws));
    PartsAdded(params, ws);
  }

  // For any path and any nonempty list of parameters, in any spelling, the path comes back and
  // the parameters are bound to exactly what was written.
  lemma {:induction false} UrlRoundTrip(params: Params, path: Bytes, ps: seq<Param>)
    requires QUESTION !in path && ps != [] && forall i :: 0 <= i < |ps| ==> ParamOk(ps[i])
    ensures var url := path + [QUESTION] + QueryWritten(ps);
            PathOf(url) == path && ParamsOf(params, url) == Bound(params, ps)
  {
    var url := path + [QUESTION] + QueryWritten(ps);
    assert url[..|path|] == url[0..|path|] == path;
    IndexAfter(url, 0, |path|, QUESTION);
    PartsBound(params, ps);
    forall i | 0 <= i < |ps| ensures AMPERSAND !in Writings(ps)[i] { ParamRoundTrip(params, ps[i]); }
    assert url[|path| + 1..] == QueryWritten(ps);
    QueryCut(url, |path| + 1, Writings(ps), QueryWritten(ps), Parts(Writings(ps)));
  }

  // The encoder of section 2.1 of RFC 3986: unreserved bytes stand for themselves.
  predicate Unreserved(b: Byte) {
    0x61 <= b <= 0x7A || 0x41 <= b <= 0x5A || 0x30 <= b <= 0x39
    || b in {0x2D, 0x2E, 0x5F, 0x7E}
  }

  function Encode(s: Bytes): (ts: seq<Token>)
  {
    seq(|s|, i requires 0 <= i < |s| => if Unreserved(s[i]) then Raw(s[i]) else Escape(s[i], true, true))
  }

  lemma {:induction false} EncodeMeans(s: Bytes)
    ensures Text(Encode(s)) == s && Clean(Encode(s), Reserved() + {EQUALS})
  {
    if s != [] {
      EncodeMeans(s[1..]);
      assert Encode(s)[1..] == Encode(s[1..]);
    }
  }

  function Pairs(kvs: seq<(Bytes, Bytes)>): seq<Param> {
    seq(|kvs|, i requires 0 <= i < |kvs| => Param(Encode(kvs[i].0), Encode(kvs[i].1)))
  }

  // So every list of keys and values, of any bytes and with repeated and empty ones, survives.
  lemma {:induction false} AnyPairsRoundTrip(path: Bytes, kvs: seq<(Bytes, Bytes)>, key: Bytes)
    requires QUESTION !in path && kvs != []
    ensures var params := ParamsOf(map[], path + [QUESTION] + QueryWritten(Pairs(kvs)));
            && (key in params <==> exists i :: 0 <= i < |kvs| && kvs[i].0 == key)
            && forall i :: 0 <= i < |kvs| && kvs[i].0 == key && (forall j :: i < j < |kvs| ==> kvs[j].0 != key) ==>
                 key in params && params[key] == kvs[i].1
  {
    forall i | 0 <= i < |kvs| ensures ParamOk(Pairs(kvs)[i]) {
      EncodeMeans(kvs[i].0);
      EncodeMeans(kvs[i].1);
    }
    UrlRoundTrip(map[], path, Pairs(kvs));
    LastWins(map[], kvs, key);
  }

  lemma {:induction false} LastWins(params: Params, kvs: seq<(Bytes, Bytes)>, key: Bytes)
    ensures var bound := Bound(params, Pairs(kvs));
            && (key in bound <==> key in params || exists i :: 0 <= i < |kvs| && kvs[i].0 == key)
            && ((forall i :: 0 <= i < |kvs| ==> kvs[i].0 != key) && key in params ==>
                  key in bound && bound[key] == params[key])
            && forall i :: 0 <= i < |kvs| && kvs[i].0 == key && (forall j :: i < j < |kvs| ==> kvs[j].0 != key) ==>
                 key in bound && bound[key] == kvs[i].1
    decreases |kvs|
  {
    if kvs != [] {
      EncodeMeans(kvs[0].0);
      EncodeMeans(kvs[0].1);
      var next := params[kvs[0].0 := kvs[0].1];
      LastWins(next, kvs[1..], key);
      assert Pairs(kvs)[1..] == Pairs(kvs[1..]);
      assert Bound(params, Pairs(kvs)) == Bound(next, Pairs(kvs[1..]));
      assert forall i :: 1 <= i < |kvs| ==> kvs[i] == kvs[1..][i - 1];
    }
  }

  // An escape cut short by the end of its key or value makes the whole parameter disappear.
  lemma {:induction false} CutEscapeIsIgnored(params: Params, p: Param, cut: Bytes)
    requires ParamOk(p) && 1 <= |cut| <= 2 && cut[0] == PERCENT && EQUALS !in cut
    ensures WithParam(params, Written(p.key) + cut + [EQUALS] + Written(p.value)) == params
    ensures WithParam(params, ParamWritten(p) + cut) == params
  {
    var key, value := Written(p.key), Written(p.value);
    WrittenAvoids(p.key, EQUALS);
    CutFails(p.key, cut);
    CutFails(p.value, cut);
    ParamParts(params, key + cut, value);
    ParamParts(params, key, value + cut);
    assert key + [EQUALS] + value + cut == key + [EQUALS] + (value + cut);
  }

  lemma {:induction false} CutFails(ts: seq<Token>, cut: Bytes)
    requires Clean(ts, Reserved()) && 1 <= |cut| <= 2 && cut[0] == PERCENT
    ensures Decode(Written(ts) + cut, 0) == None
  {
    var s, n := Written(ts) + cut, |Written(ts)|;
    assert s[0..n] == Written(ts) && s[n] == cut[0];
    DecodeWritten(s, 0, ts, Text(ts), Written(ts));
  }

  // ---- what the decoder accepts beyond spellings ------------------------------------------------

  // "%zz" is accepted: an escape takes any two bytes.
  lemma {:induction false} AnyTwoBytes()
    ensures Decode([0x25, 0x7A, 0x7A], 0) == Some([0x53])
  {
    assert Decode([0x25, 0x7A, 0x7A], 3) == Some([]);
    assert HexStrToChar(0x7A, 0x7A) == 0x53;
    assert [0x53 as Byte] + [] == [0x53];
  }

  // What the bytes after '%' are worth: a letter of either case its place in the alphabet from
  // 10 on, any other byte its distance from '0', modulo 256; the first of the two sixteen times.
  lemma {:induction false} EscapeValue(hi: Byte, lo: Byte, i: Byte)
    ensures Decode([0x25, hi, lo], 0) == Some([HexToByte(hi) * 16 + HexToByte(lo)])
    ensures i < 26 ==> HexToByte(0x61 + i) == HexToByte(0x41 + i) == 10 + i
    ensures !(0x61 <= hi <= 0x7A) && !(0x41 <= hi <= 0x5A) ==> HexToByte(hi) + 0x30 == hi
  {
    assert Decode([0x25, hi, lo], 3) == Some([]);
    assert [HexStrToChar(hi, lo)] + [] == [HexStrToChar(hi, lo)];
  }

  // HEXDIG of section 2.1 of RFC 3986, in either case.
  predicate HexDigit(c: Byte) {
    0x30 <= c <= 0x39 || 0x41 <= c <= 0x46 || 0x61 <= c <= 0x66
  }

  predicate IsSpelling(s: Bytes, ts: seq<Token>) {
    Clean(ts, {PERCENT, PLUS}) && Written(ts) == s
  }

  // Every escape the scan comes to, from `from` on, has two hexadecimal digits.
  predicate HexEscapes(s: Bytes, from: nat)
    requires from <= |s|
  {
    forall n :: from <= n < |s| && s[n] == PERCENT && Meets(s, from, n) ==>
      n + 2 < |s| && HexDigit(s[n + 1]) && HexDigit(s[n + 2])
  }

  lemma {:induction false} EscapeOf(hi: Byte, lo: Byte) returns (t: Token)
    requires HexDigit(hi) && HexDigit(lo)
    ensures t.Escape? && Spelling(t) == [PERCENT, hi, lo]
  {
    var b := HexStrToChar(hi, lo);
    t := Escape(b, hi <= 0x46, lo <= 0x46);
  }

  lemma {:induction false} SpellingHasDigits(t: Token)
    ensures t.Escape? ==> HexDigit(Spelling(t)[1]) && HexDigit(Spelling(t)[2])
  {
  }

  lemma {:induction false} HexEscapesNext(s: Bytes, from: nat)
    requires from < |s|
    ensures HexEscapes(s, from) <==>
            if s[from] == PERCENT
            then from + 3 <= |s| && HexDigit(s[from + 1]) && HexDigit(s[from + 2]) && HexEscapes(s, from + 3)
            else HexEscapes(s, from + 1)
  {
    MeetsNext(s, from, from);
    var next := if s[from] == PERCENT then from + 3 else from + 1;
    forall n | next <= n < |s| ensures Meets(s, from, n) <==> Meets(s, next, n) { MeetsNext(s, from, n); }
    forall n | from < n < next && n < |s| ensures !Meets(s, from, n) { MeetsNext(s, from, n); }
  }

  lemma {:induction false} FirstToken(s: Bytes, from: nat, t: Token, rest: Bytes)
    requires from <= |s| && s[from..] == Spelling(t) + rest && (t.Raw? ==> t.b !in {PERCENT, PLUS})
    ensures from + |Spelling(t)| <= |s| && s[from + |Spelling(t)|..] == rest
    ensures (s[from] == PERCENT) == t.Escape? && |Spelling(t)| == if t.Escape? then 3 else 1
    ensures t.Escape? ==> HexDigit(s[from + 1]) && HexDigit(s[from + 2])
  {
    var all := s[from..];
    assert s[from] == all[0] && all[|Spelling(t)|..] == rest;
    if t.Escape? {
      assert s[from + 1] == all[1] && s[from + 2] == all[2];
      SpellingHasDigits(t);
    }
  }

  lemma {:induction false} SpellingHexes(s: Bytes, from: nat, ts: seq<Token>)
    requires from <= |s| && IsSpelling(s[from..], ts)
    ensures HexEscapes(s, from)
    decreases |ts|
  {
    if ts != [] {
      FirstToken(s, from, ts[0], Written(ts[1..]));
      SpellingHexes(s, from + |Spelling(ts[0])|, ts[1..]);
      HexEscapesNext(s, from);
    }
  }

  lemma {:induction false} SpellingFrom(s: Bytes, from: nat) returns (ts: seq<Token>)
    requires from <= |s| && HexEscapes(s, from)
    ensures IsSpelling(s[from..], ts)
    decreases |s| - from
  {
    if from == |s| {
      ts := [];
    } else {
      HexEscapesNext(s, from);
      var t := if s[from] == PLUS then Plus else Raw(s[from]);
      if s[from] == PERCENT { t := EscapeOf(s[from + 1], s[from + 2]); }
      var next := from + |Spelling(t)|;
      var others := SpellingFrom(s, next);
      assert s[from..] == Spelling(t) + s[next..];
      ts := [t] + others;
      assert ts[1..] == others;
    }
  }

  // A string is a spelling if and only if every escape the scan comes to has two digits, and
  // then the decoder returns what is spelled.
  lemma {:induction false} SpellingIff(s: Bytes)
    ensures (exists ts :: IsSpelling(s, ts)) <==> HexEscapes(s, 0)
    ensures forall ts :: IsSpelling(s, ts) ==> Decode(s, 0) == Some(Text(ts))
  {
    assert s[0..] == s;
    forall ts | IsSpelling(s, ts) ensures HexEscapes(s, 0) && Decode(s, 0) == Some(Text(ts)) {
      SpellingHexes(s, 0, ts);
      WrittenDecodes(ts);
    }
    if HexEscapes(s, 0) {
      var ts := SpellingFrom(s, 0);
    }
  }

  // So of the strings the decoder accepts, those that are no spelling are the ones in which
  // the scan comes to an escape with a byte that is not a digit.
  lemma {:induction false} AcceptedBeyondSpelling(s: Bytes)
    requires Decode(s, 0).Some?
    ensures (forall ts :: !IsSpelling(s, ts)) <==>
            exists n :: 0 <= n && n + 2 < |s| && s[n] == PERCENT && Meets(s, 0, n) &&
                        !(HexDigit(s[n + 1]) && HexDigit(s[n + 2]))
  {
    SpellingIff(s);
    FailsOnlyAtCut(s, 0);
    if !HexEscapes(s, 0) {
      var n :| 0 <= n < |s| && s[n] == PERCENT && Meets(s, 0, n)
               && !(n + 2 < |s| && HexDigit(s[n + 1]) && HexDigit(s[n + 2]));
    }
  }
}
