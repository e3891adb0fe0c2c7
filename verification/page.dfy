/**
 * The browser page: it asks `/api/get-location` for the jurisdiction of the
 * address, then reads the `/api/get-permit-info` event stream chunk by chunk,
 * pulls the text deltas out of each chunk and shows the text so far.
 */
module Page {
  import opened Wrappers
  import opened Text
  import opened Streams
  import Location
  import PermitRoute

  const DataPrefix := "data: "
  const DoneMarker := "[DONE]"
  const NoBody := "Failed to get response body."
  const SomethingWrong := "Something went wrong"

  /**
   * What `JSON.parse` makes of one piece: a value, of which only
   * `choices[0].delta.content` matters (`None` when that path is missing), or
   * a `SyntaxError` with its message.
   */
  datatype Parsed = Json(content: Option<string>) | SyntaxError(message: string)

  /** `json.choices?.[0]?.delta?.content || ""`. */
  function Content(content: Option<string>): string {
    content.GetOr("")
  }

  /** The filter `line.trim() !== "" && line.trim() !== "[DONE]"`. */
  predicate Kept(piece: string) {
    Trim(piece) != "" && Trim(piece) != DoneMarker
  }

  /** The pieces the filter lets through, in their order. */
  function KeptPieces(pieces: seq<string>): seq<string>
    decreases |pieces|
  {
    if pieces == [] then []
    else (if Kept(pieces[0]) then [pieces[0]] else []) + KeptPieces(pieces[1..])
  }

  /** The filter keeps exactly the pieces that are neither blank nor "[DONE]". */
  lemma {:induction false} KeptPiecesSpec(pieces: seq<string>)
    ensures forall p :: p in KeptPieces(pieces) <==> p in pieces && Kept(p)
    decreases |pieces|
  {
    if pieces != [] {
      KeptPiecesSpec(pieces[1..]);
      assert pieces == [pieces[0]] + pieces[1..];
    }
  }

  /** The filter keeps order: filtering two runs of pieces one after the other is filtering each. */
  lemma {:induction false} KeptPiecesAppend(a: seq<string>, b: seq<string>)
    ensures KeptPieces(a + b) == KeptPieces(a) + KeptPieces(b)
    decreases |a|
  {
    if a == [] {
      assert a + b == b;
    } else {
      KeptPiecesAppend(a[1..], b);
      assert (a + b)[0] == a[0] && (a + b)[1..] == a[1..] + b;
      var h := if Kept(a[0]) then [a[0]] else [];
      assert KeptPieces(a + b) == h + KeptPieces(a[1..] + b);
      assert KeptPieces(a) == h + KeptPieces(a[1..]);
    }
  }

  /**
   * `.map(JSON.parse).map(json => content)`: every piece is parsed in order,
   * and the first one that does not parse throws its message.
   */
  function ParseAll(pieces: seq<string>, parse: string -> Parsed): Result<seq<string>>
    decreases |pieces|
  {
    if pieces == [] then Success([])
    else
      match parse(pieces[0])
      case SyntaxError(m) => Failure(m)
      case Json(c) =>
        match ParseAll(pieces[1..], parse)
        case Failure(m) => Failure(m)
        case Success(rest) => Success([Content(c)] + rest)
  }

  /**
   * The parse succeeds exactly when every piece parses, and then yields each
   * piece's content in order; otherwise it fails with the message of the
   * first piece that does not parse.
   */
  lemma {:induction false} ParseAllSpec(pieces: seq<string>, parse: string -> Parsed)
    ensures var r := ParseAll(pieces, parse);
      && (r.Success? <==> forall i :: 0 <= i < |pieces| ==> parse(pieces[i]).Json?)
      && (r.Success? ==> |r.value| == |pieces|
                         && forall i :: 0 <= i < |pieces| ==> r.value[i] == Content(parse(pieces[i]).content))
      && (r.Failure? ==> exists i :: 0 <= i < |pieces| && parse(pieces[i]) == SyntaxError(r.message)
                                     && forall k :: 0 <= k < i ==> parse(pieces[k]).Json?)
    decreases |pieces|
  {
    if pieces != [] {
      ParseAllSpec(pieces[1..], parse);
      var r := ParseAll(pieces, parse);
      var tail := pieces[1..];
      assert forall i :: 0 < i < |pieces| ==> pieces[i] == tail[i - 1];
      if parse(pieces[0]).Json? && ParseAll(tail, parse).Failure? {
        var m := ParseAll(tail, parse).message;
        var i :| 0 <= i < |tail| && parse(tail[i]) == SyntaxError(m)
                 && forall k :: 0 <= k < i ==> parse(tail[k]).Json?;
        assert parse(pieces[i + 1]) == SyntaxError(m);
        assert forall k :: 0 <= k < i + 1 ==> parse(pieces[k]).Json?;
      }
      if parse(pieces[0]).SyntaxError? {
        assert parse(pieces[0]) == SyntaxError(r.message);
      }
    }
  }

  /** `ParseAll` of a single piece. */
  lemma ParseOne(piece: string, parse: string -> Parsed)
    ensures parse(piece).Json? ==> ParseAll([piece], parse) == Success([Content(parse(piece).content)])
    ensures parse(piece).SyntaxError? ==> ParseAll([piece], parse) == Failure(parse(piece).message)
  {
    assert [piece][0] == piece && [piece][1..] == [];
    assert ParseAll([], parse) == Success([]);
    if parse(piece).Json? {
      var c := Content(parse(piece).content);
      assert [c] + [] == [c];
    }
  }

  /**
   * One chunk's text: split on "data: ", drop the blank and "[DONE]" pieces,
   * parse the rest, take each one's content and join them.
   */
  function DecodeChunk(text: string, parse: string -> Parsed): Result<string> {
    match ParseAll(KeptPieces(Split(text, DataPrefix)), parse)
    case Failure(m) => Failure(m)
    case Success(contents) => Success(Join(contents, ""))
  }

  /** The content a parsed piece contributes; a piece that did not parse contributes nothing. */
  function ContentOf(parsed: Parsed): string {
    if parsed.Json? then Content(parsed.content) else ""
  }

  /** The content of each piece, in order. */
  function Contents(pieces: seq<string>, parse: string -> Parsed): (cs: seq<string>)
    ensures |cs| == |pieces|
    ensures forall i :: 0 <= i < |pieces| ==> cs[i] == ContentOf(parse(pieces[i]))
  {
    seq(|pieces|, i requires 0 <= i < |pieces| => ContentOf(parse(pieces[i])))
  }

  /**
   * A chunk decodes when every kept piece parses, and then to the contents of
   * the kept pieces joined in order; otherwise it throws the message of the
   * first kept piece that does not parse.
   */
  lemma DecodeChunkSpec(text: string, parse: string -> Parsed, kept: seq<string>)
    requires kept == KeptPieces(Split(text, DataPrefix))
    ensures DecodeChunk(text, parse).Success? <==> forall i :: 0 <= i < |kept| ==> parse(kept[i]).Json?
    ensures DecodeChunk(text, parse).Success? ==> DecodeChunk(text, parse).value == Join(Contents(kept, parse), "")
    ensures DecodeChunk(text, parse).Failure? ==>
      exists i :: 0 <= i < |kept| && parse(kept[i]) == SyntaxError(DecodeChunk(text, parse).message)
                  && forall k :: 0 <= k < i ==> parse(kept[k]).Json?
  {
    ParseAllSpec(kept, parse);
    var pa := ParseAll(kept, parse);
    if pa.Success? {
      assert DecodeChunk(text, parse) == Success(Join(pa.value, ""));
      assert pa.value == Contents(kept, parse);
    } else {
      assert DecodeChunk(text, parse) == Failure(pa.message);
    }
  }

  /** `ParseAll` looks at `parse` only on the pieces it is given. */
  lemma {:induction false} ParseAllLocal(pieces: seq<string>, parse1: string -> Parsed, parse2: string -> Parsed)
    requires forall p :: p in pieces ==> parse1(p) == parse2(p)
    ensures ParseAll(pieces, parse1) == ParseAll(pieces, parse2)
    decreases |pieces|
  {
    if pieces != [] {
      assert pieces[0] in pieces;
      ParseAllLocal(pieces[1..], parse1, parse2);
    }
  }

  /**
   * Blank and "[DONE]" pieces are never parsed: two parsers that agree on the
   * kept pieces decode the chunk alike, whatever they do with the others.
   */
  lemma DroppedPiecesNeverParsed(text: string, parse1: string -> Parsed, parse2: string -> Parsed)
    requires forall p :: p in Split(text, DataPrefix) && Kept(p) ==> parse1(p) == parse2(p)
    ensures DecodeChunk(text, parse1) == DecodeChunk(text, parse2)
  {
    KeptPiecesSpec(Split(text, DataPrefix));
    ParseAllLocal(KeptPieces(Split(text, DataPrefix)), parse1, parse2);
  }

  /** The body of an event stream: each piece behind its own "data: ". */
  function Frame(pieces: seq<string>): string
    decreases |pieces|
  {
    if pieces == [] then "" else DataPrefix + pieces[0] + Frame(pieces[1..])
  }

  /** No proper suffix of "data: " is also a prefix of it. */
  lemma DataPrefixBorderFree()
    ensures BorderFree(DataPrefix)
  {
    forall k | 0 < k < |DataPrefix| ensures DataPrefix[k..] != DataPrefix[..|DataPrefix| - k] {
      assert DataPrefix[k..][0] != DataPrefix[0];
    }
  }

  /** A piece with no "data: " in front of framed pieces splits into that piece and the framed ones. */
  lemma {:induction false} SplitLeadFrame(q: string, pieces: seq<string>)
    requires !Contains(q, DataPrefix)
    requires forall p :: p in pieces ==> !Contains(p, DataPrefix)
    ensures Split(q + Frame(pieces), DataPrefix) == [q] + pieces
    decreases |pieces|
  {
    if pieces == [] {
      assert q + Frame(pieces) == q;
      SplitWhole(q, DataPrefix);
    } else {
      var p, rest := pieces[0], Frame(pieces[1..]);
      assert q + Frame(pieces) == q + DataPrefix + (p + rest);
      DataPrefixBorderFree();
      NoStraddle(q, p + rest, DataPrefix);
      SplitAfter(q, p + rest, DataPrefix);
      assert p in pieces;
      assert forall r :: r in pieces[1..] ==> r in pieces;
      SplitLeadFrame(p, pieces[1..]);
      assert [p] + pieces[1..] == pieces;
    }
  }

  /** Framing pieces that hold no "data: " and splitting again gives them back, after one empty piece. */
  lemma SplitFrame(pieces: seq<string>)
    requires forall p :: p in pieces ==> !Contains(p, DataPrefix)
    ensures Split(Frame(pieces), DataPrefix) == [""] + pieces
  {
    assert forall i: nat :: !OccursAt("", i, DataPrefix);
    assert "" + Frame(pieces) == Frame(pieces);
    SplitLeadFrame("", pieces);
  }

  /** "[DONE]\n\n" is dropped by the filter and holds no "data: ". */
  lemma DoneLine()
    ensures !Kept("[DONE]\n\n") && !Contains("[DONE]\n\n", DataPrefix)
  {
    var s := "[DONE]\n\n";
    assert TrimStart(s) == s;
    assert TrimEnd(s) == TrimEnd(s[..7]) == TrimEnd(s[..6]);
    assert s[..6] == DoneMarker;
    forall i: nat ensures !OccursAt(s, i, DataPrefix) {
      if i + |DataPrefix| <= |s| {
        assert s[i..i + |DataPrefix|][0] == s[i] != 'd';
      }
    }
  }

  /**
   * The stream `data: A\n\ndata: B\n\ndata: [DONE]\n\n` with two kept pieces
   * whose contents are `a` and `b` decodes to `a + b`.
   */
  lemma TwoDeltasThenDone(pa: string, pb: string, a: string, b: string, parse: string -> Parsed)
    requires Kept(pa) && Kept(pb)
    requires !Contains(pa, DataPrefix) && !Contains(pb, DataPrefix)
    requires parse(pa) == Json(Some(a)) && parse(pb) == Json(Some(b))
    ensures DecodeChunk(Frame([pa, pb, "[DONE]\n\n"]), parse) == Success(a + b)
  {
    var done := "[DONE]\n\n";
    DoneLine();
    SplitFrame([pa, pb, done]);
    var text := Frame([pa, pb, done]);
    assert Split(text, DataPrefix) == ["", pa, pb, done];
    KeptTwoOfFour(pa, pb, done);
    ParseTwo(pa, pb, parse);
    JoinTwo(a, b);
  }

  /** `ParseAll` of two pieces that both parse. */
  lemma ParseTwo(pa: string, pb: string, parse: string -> Parsed)
    requires parse(pa).Json? && parse(pb).Json?
    ensures ParseAll([pa, pb], parse) == Success([Content(parse(pa).content), Content(parse(pb).content)])
  {
    ParseOne(pb, parse);
    assert [pa, pb][0] == pa && [pa, pb][1..] == [pb];
    var ca, cb := Content(parse(pa).content), Content(parse(pb).content);
    assert [ca] + [cb] == [ca, cb];
  }

  /** Joining two strings with no separator concatenates them. */
  lemma JoinTwo(a: string, b: string)
    ensures Join([a, b], "") == a + b
  {
    assert [a, b][1..] == [b];
  }

  /** The filter on the four pieces of a two-delta event stream keeps the two deltas. */
  lemma KeptTwoOfFour(pa: string, pb: string, done: string)
    requires Kept(pa) && Kept(pb) && !Kept(done)
    ensures KeptPieces(["", pa, pb, done]) == [pa, pb]
  {
    assert !Kept("") by {
      assert TrimStart("") == "";
    }
    KeptPiecesCons(done, []);
    KeptPiecesCons(pb, [done]);
    KeptPiecesCons(pa, [pb, done]);
    KeptPiecesCons("", [pa, pb, done]);
  }

  /** One more piece in front is kept or dropped on its own. */
  lemma KeptPiecesCons(p: string, ps: seq<string>)
    ensures KeptPieces([p] + ps) == (if Kept(p) then [p] else []) + KeptPieces(ps)
  {
    assert ([p] + ps)[1..] == ps;
  }

  /**
   * Chunks are decoded on their own: a piece cut in two by a chunk boundary
   * fails to parse even though the whole piece would.
   */
  lemma PieceSplitAcrossChunks(head: string, tail: string, c: string, m: string, parse: string -> Parsed)
    requires Kept(head) && Kept(head + tail)
    requires !Contains(head, DataPrefix) && !Contains(head + tail, DataPrefix)
    requires parse(head) == SyntaxError(m) && parse(head + tail) == Json(Some(c))
    ensures DecodeChunk(DataPrefix + (head + tail), parse) == Success(c)
    ensures DecodeChunk(DataPrefix + head, parse) == Failure(m)
  {
    DecodeOneEvent(head + tail, parse);
    DecodeOneEvent(head, parse);
  }

  /** A chunk holding one event, `data: ` and a kept piece, decodes to that piece's content or its parse error. */
  lemma DecodeOneEvent(piece: string, parse: string -> Parsed)
    requires Kept(piece) && !Contains(piece, DataPrefix)
    ensures parse(piece).Json? ==> DecodeChunk(DataPrefix + piece, parse) == Success(Content(parse(piece).content))
    ensures parse(piece).SyntaxError? ==> DecodeChunk(DataPrefix + piece, parse) == Failure(parse(piece).message)
  {
    SplitOneEvent(piece);
    KeptAfterEmpty(piece);
    ParseOne(piece, parse);
    var text := DataPrefix + piece;
    assert ParseAll(KeptPieces(Split(text, DataPrefix)), parse) == ParseAll([piece], parse);
    if parse(piece).Json? {
      assert Join([Content(parse(piece).content)], "") == Content(parse(piece).content);
    }
  }

  /** A single "data: " frame whose payload holds no further "data: " splits into a blank lead and the payload. */
  lemma SplitOneEvent(piece: string)
    requires !Contains(piece, DataPrefix)
    ensures Split(DataPrefix + piece, DataPrefix) == ["", piece]
  {
    assert forall i: nat :: !OccursAt("", i, DataPrefix);
    assert DataPrefix + piece == "" + DataPrefix + piece;
    SplitAfter("", piece, DataPrefix);
    SplitWhole(piece, DataPrefix);
    assert [""] + [piece] == ["", piece];
  }

  /** The filter on a blank lead followed by a kept piece keeps that piece alone. */
  lemma KeptAfterEmpty(piece: string)
    requires Kept(piece)
    ensures KeptPieces(["", piece]) == [piece]
  {
    assert !Kept("") by {
      assert TrimStart("") == "";
    }
    KeptPiecesCons(piece, []);
    KeptPiecesCons("", [piece]);
    assert [piece] + [] == [piece] && [""] + [piece] == ["", piece];
  }

  /** Each chunk text decoded on its own, in order. */
  function Decoded(texts: seq<string>, parse: string -> Parsed): (r: seq<Result<string>>)
    ensures |r| == |texts|
    decreases |texts|
  {
    if texts == [] then [] else [DecodeChunk(texts[0], parse)] + Decoded(texts[1..], parse)
  }

  /** Each chunk is decoded from its own text alone. */
  lemma {:induction false} DecodedSpec(texts: seq<string>, parse: string -> Parsed)
    ensures forall i :: 0 <= i < |texts| ==> Decoded(texts, parse)[i] == DecodeChunk(texts[i], parse)
    decreases |texts|
  {
    if texts != [] {
      DecodedSpec(texts[1..], parse);
      var d := Decoded(texts, parse);
      assert d == [DecodeChunk(texts[0], parse)] + Decoded(texts[1..], parse);
      forall i | 0 < i < |texts| ensures d[i] == DecodeChunk(texts[i], parse) {
        assert texts[1..][i - 1] == texts[i];
      }
    }
  }

  /**
   * The values `result` takes, starting from `result`, over the decoded
   * chunks in order: one per chunk that decodes, up to the first that throws,
   * whose message is the failure.
   */
  datatype Progress = Progress(shown: seq<string>, failure: Option<string>)

  /** The `result` values shown while reading `outcomes`, and the first failure met. */
  function Consume(result: string, outcomes: seq<Result<string>>): Progress
    decreases |outcomes|
  {
    if outcomes == [] then Progress([], None)
    else
      match outcomes[0]
      case Failure(m) => Progress([], Some(m))
      case Success(delta) =>
        var rest := Consume(result + delta, outcomes[1..]);
        Progress([result + delta] + rest.shown, rest.failure)
  }

  /**
   * `result` takes one value per chunk that decodes, each extending the value
   * it started from; the stream is read to its end unless a chunk throws, and
   * then the first chunk that throws gives the failure.
   */
  lemma {:induction false} ConsumeSpec(result: string, outcomes: seq<Result<string>>)
    ensures var p := Consume(result, outcomes);
      && |p.shown| <= |outcomes|
      && (p.failure.None? ==> |p.shown| == |outcomes|)
      && (p.failure.Some? ==> |p.shown| < |outcomes| && outcomes[|p.shown|] == Failure(p.failure.value))
      && (forall k :: 0 <= k < |p.shown| ==> outcomes[k].Success?)
      && (forall k :: 0 <= k < |p.shown| ==> result <= p.shown[k])
    decreases |outcomes|
  {
    if outcomes != [] && outcomes[0].Success? {
      var delta := outcomes[0].value;
      ConsumeSpec(result + delta, outcomes[1..]);
      var p, rest := Consume(result, outcomes), Consume(result + delta, outcomes[1..]);
      assert p.shown == [result + delta] + rest.shown;
      forall k | 0 < k < |p.shown| ensures outcomes[k].Success? && result <= p.shown[k] {
        assert outcomes[k] == outcomes[1..][k - 1];
        assert p.shown[k] == rest.shown[k - 1];
        assert result <= result + delta;
      }
      if p.failure.Some? {
        assert outcomes[|p.shown|] == outcomes[1..][|rest.shown|];
      }
    }
  }

  /** The text each chunk contributes, up to the first chunk that throws. */
  function Deltas(outcomes: seq<Result<string>>): seq<string>
    decreases |outcomes|
  {
    if outcomes == [] then []
    else
      match outcomes[0]
      case Failure(_) => []
      case Success(delta) => [delta] + Deltas(outcomes[1..])
  }

  /** After `k + 1` chunks, `result` is the concatenation of their deltas, in order. */
  lemma {:induction false} ConsumeIsRunningTotal(result: string, outcomes: seq<Result<string>>)
    ensures var p, d := Consume(result, outcomes), Deltas(outcomes);
      && |p.shown| == |d|
      && forall k :: 0 <= k < |d| ==> p.shown[k] == result + Join(d[..k + 1], "")
    decreases |outcomes|
  {
    if outcomes != [] && outcomes[0].Success? {
      var delta := outcomes[0].value;
      var d' := Deltas(outcomes[1..]);
      ConsumeIsRunningTotal(result + delta, outcomes[1..]);
      var p, d := Consume(result, outcomes), Deltas(outcomes);
      assert d == [delta] + d';
      forall k | 0 <= k < |d| ensures p.shown[k] == result + Join(d[..k + 1], "") {
        assert d[..k + 1] == [delta] + d'[..k];
        if k == 0 {
          assert d[..1] == [delta];
        } else {
          JoinCons(delta, d'[..k], "");
          assert p.shown[k] == Consume(result + delta, outcomes[1..]).shown[k - 1];
        }
      }
    }
  }

  /** Each value of `result` extends the one before: the text only ever grows. */
  lemma {:induction false} ConsumeOnlyGrows(result: string, outcomes: seq<Result<string>>, i: nat, j: nat)
    requires i <= j < |Consume(result, outcomes).shown|
    ensures Consume(result, outcomes).shown[i] <= Consume(result, outcomes).shown[j]
    decreases |outcomes|
  {
    var delta := outcomes[0].value;
    var p, rest := Consume(result, outcomes), Consume(result + delta, outcomes[1..]);
    assert p.shown == [result + delta] + rest.shown;
    if i > 0 {
      ConsumeOnlyGrows(result + delta, outcomes[1..], i - 1, j - 1);
    } else if j > 0 {
      ConsumeSpec(result + delta, outcomes[1..]);
      assert p.shown[j] == rest.shown[j - 1];
    }
  }

  /** A chunk that throws ends the values of `result` there, with its message. */
  lemma {:induction false} ConsumeStopsAt(result: string, outcomes: seq<Result<string>>, k: nat, m: string)
    requires k < |outcomes| && outcomes[k] == Failure(m)
    requires forall i :: 0 <= i < k ==> outcomes[i].Success?
    ensures |Consume(result, outcomes).shown| == k
    ensures Consume(result, outcomes).failure == Some(m)
    decreases k
  {
    if k > 0 {
      var delta := outcomes[0].value;
      assert forall i :: 0 <= i < k - 1 ==> outcomes[1..][i] == outcomes[i + 1];
      ConsumeStopsAt(result + delta, outcomes[1..], k - 1, m);
    }
  }

  /** The page's `permitInfo` state; `None` fields are keys the object lacks. */
  datatype PermitInfo = PermitInfo(city: Field, township: Field, county: Field, permitWebsite: Field, permitInfo: Field)

  /**
   * The updater `fetchPermitInfo` hands to `setPermitInfo`: keep the current
   * state, or start one from the arguments when there is none, and set its text
   * to the whole `result`.
   */
  function WithText(prev: Option<PermitInfo>, city: Field, county: Field, township: Field, result: string): (s: PermitInfo)
    ensures s.permitInfo == Some(result)
    ensures prev.Some? ==> s.city == prev.value.city && s.township == prev.value.township
                           && s.county == prev.value.county && s.permitWebsite == prev.value.permitWebsite
    ensures prev.None? ==> s.city == city && s.township == township && s.county == county && s.permitWebsite == Some("")
  {
    prev.GetOr(PermitInfo(city, township, county, Some(""), Some(""))).(permitInfo := Some(result))
  }

  /** The states installed as `result` takes the values `shown`, one per value. */
  function Rendered(prev: Option<PermitInfo>, city: Field, county: Field, township: Field, shown: seq<string>)
    : seq<PermitInfo>
    decreases |shown|
  {
    if shown == [] then []
    else [WithText(prev, city, county, township, shown[0])] + Rendered(prev, city, county, township, shown[1..])
  }

  /** One installed state per value of `result`, each holding that value. */
  lemma {:induction false} RenderedSpec(prev: Option<PermitInfo>, city: Field, county: Field, township: Field,
                                        shown: seq<string>)
    ensures var r := Rendered(prev, city, county, township, shown);
      && |r| == |shown|
      && forall k :: 0 <= k < |shown| ==> r[k] == WithText(prev, city, county, township, shown[k])
    decreases |shown|
  {
    if shown != [] {
      RenderedSpec(prev, city, county, township, shown[1..]);
    }
  }

  /** What the page holds after a step: every state `setPermitInfo` installed, the current one, and the error text. */
  datatype View = View(screens: seq<PermitInfo>, permitInfo: Option<PermitInfo>, error: string)

  /** How the request to `/api/get-permit-info` went. */
  datatype PermitFetch = PermitUnreachable(message: string) | PermitNoBody | PermitStream

  /**
   * `fetchPermitInfo` from state `prev` and error `error`, when the body's
   * chunks decode to `outcomes` and the stream then ends with `fault`.
   */
  function AfterFetch(prev: Option<PermitInfo>, error: string, city: Field, county: Field, township: Field,
                      fetched: PermitFetch, outcomes: seq<Result<string>>, fault: Option<string>): View
  {
    match fetched
    case PermitUnreachable(m) => View([], prev, m)
    case PermitNoBody => View([], prev, NoBody)
    case PermitStream =>
      var p := Consume("", outcomes);
      var screens := Rendered(prev, city, county, township, p.shown);
      View(screens,
           if screens == [] then prev else Some(screens[|screens| - 1]),
           if p.failure.Some? then p.failure.value else if fault.Some? then fault.value else error)
  }

  /** How many chunks the loop reads: up to and including the first that throws, else all of them. */
  function ChunksRead(outcomes: seq<Result<string>>): (n: nat)
    ensures n <= |outcomes|
    decreases |outcomes|
  {
    if outcomes == [] then 0
    else if outcomes[0].Failure? then 1
    else 1 + ChunksRead(outcomes[1..])
  }

  /**
   * The loop reads one chunk per screen it adds, and one more only when a
   * chunk throws, which never happens once every chunk has added a screen.
   */
  lemma ReadsPastScreens(prev: Option<PermitInfo>, error: string, city: Field, county: Field, township: Field,
                         outcomes: seq<Result<string>>, fault: Option<string>)
    ensures var n, s := ChunksRead(outcomes), |AfterFetch(prev, error, city, county, township, PermitStream, outcomes, fault).screens|;
      (n == s && s == |outcomes|) || n == s + 1
  {
    var p := Consume("", outcomes);
    ChunksReadSpec("", outcomes);
    ConsumeSpec("", outcomes);
    RenderedSpec(prev, city, county, township, p.shown);
  }

  /** Having read `k` of the chunks, one past the screens shown or all of them, leaves the rest unread. */
  lemma UnreadAt(codec: Utf8Codec, chunks: seq<Bytes>, parse: string -> Parsed, k: nat,
                 prev: Option<PermitInfo>, error: string, city: Field, county: Field, township: Field, fault: Option<string>)
    requires k <= |chunks|
    requires var s := |AfterFetch(prev, error, city, county, township, PermitStream,
                                  Decoded(Texts(codec, [], chunks), parse), fault).screens|;
      k == s + 1 || (k == s && k == |chunks|)
    ensures Unread(PermitStream, codec, chunks, parse) == chunks[k..]
  {
    ReadsPastScreens(prev, error, city, county, township, Decoded(Texts(codec, [], chunks), parse), fault);
  }

  /**
   * The chunks `fetchPermitInfo` leaves in the body: all of them when it
   * never gets a stream, else those after the last one the loop reads.
   */
  function Unread(fetched: PermitFetch, codec: Utf8Codec, chunks: seq<Bytes>, parse: string -> Parsed): (rest: seq<Bytes>)
    ensures |rest| <= |chunks| && rest == chunks[|chunks| - |rest|..]
  {
    if fetched.PermitStream? then chunks[ChunksRead(Decoded(Texts(codec, [], chunks), parse))..] else chunks
  }

  /** The loop reads one chunk per value of `result`, and one more when a chunk throws. */
  lemma {:induction false} ChunksReadSpec(result: string, outcomes: seq<Result<string>>)
    ensures var p := Consume(result, outcomes);
      ChunksRead(outcomes) == if p.failure.Some? then |p.shown| + 1 else |outcomes|
    decreases |outcomes|
  {
    if outcomes != [] {
      ConsumeStep(result, outcomes[0], outcomes[1..]);
      assert outcomes == [outcomes[0]] + outcomes[1..];
      if outcomes[0].Success? {
        ChunksReadSpec(result + outcomes[0].value, outcomes[1..]);
      }
    }
  }

  /**
   * A stream read to its end leaves nothing in the body; one that throws at a
   * chunk leaves exactly the chunks after it (`Unread` is a suffix); without a
   * stream nothing is read.
   */
  lemma UnreadSpec(fetched: PermitFetch, codec: Utf8Codec, chunks: seq<Bytes>, parse: string -> Parsed)
    ensures !fetched.PermitStream? ==> Unread(fetched, codec, chunks, parse) == chunks
    ensures var p := Consume("", Decoded(Texts(codec, [], chunks), parse));
      && (fetched.PermitStream? && p.failure.None? ==> Unread(fetched, codec, chunks, parse) == [])
      && (fetched.PermitStream? && p.failure.Some? ==> |p.shown| + 1 + |Unread(fetched, codec, chunks, parse)| == |chunks|)
  {
    ChunksReadSpec("", Decoded(Texts(codec, [], chunks), parse));
  }

  /**
   * After every chunk the page shows the whole text so far, never just the
   * latest delta: screen `k` holds the deltas of chunks `0..k` joined, and the
   * location fields of the state it started from.
   */
  lemma ScreensShowWholeResult(prev: Option<PermitInfo>, error: string, city: Field, county: Field, township: Field,
                               outcomes: seq<Result<string>>, fault: Option<string>)
    ensures var v, d := AfterFetch(prev, error, city, county, township, PermitStream, outcomes, fault), Deltas(outcomes);
      && |v.screens| == |d|
      && forall k :: 0 <= k < |d| ==> v.screens[k] == WithText(prev, city, county, township, Join(d[..k + 1], ""))
  {
    ConsumeIsRunningTotal("", outcomes);
    RenderedSpec(prev, city, county, township, Consume("", outcomes).shown);
    var v, d := AfterFetch(prev, error, city, county, township, PermitStream, outcomes, fault), Deltas(outcomes);
    forall k | 0 <= k < |d| ensures v.screens[k] == WithText(prev, city, county, township, Join(d[..k + 1], "")) {
      assert "" + Join(d[..k + 1], "") == Join(d[..k + 1], "");
    }
  }

  /**
   * A chunk that throws stops the stream: the text already shown stays, no
   * later chunk is shown, and the error is its message.
   */
  lemma ThrowKeepsShownText(prev: Option<PermitInfo>, error: string, city: Field, county: Field, township: Field,
                            outcomes: seq<Result<string>>, k: nat, m: string, fault: Option<string>)
    requires k < |outcomes| && outcomes[k] == Failure(m)
    requires forall i :: 0 <= i < k ==> outcomes[i].Success?
    ensures var v := AfterFetch(prev, error, city, county, township, PermitStream, outcomes, fault);
      && |v.screens| == k && v.error == m
      && v.permitInfo == if k == 0 then prev else Some(v.screens[k - 1])
  {
    ConsumeStopsAt("", outcomes, k, m);
    RenderedSpec(prev, city, county, township, Consume("", outcomes).shown);
  }

  /**
   * The route's JSON error reply is not checked for: when the page is handed
   * it as the stream, it parses with no content and the page shows "" without
   * any error.
   */
  lemma ErrorReplyShowsEmptyText(prev: Option<PermitInfo>, error: string, city: Field, county: Field, township: Field,
                                 reply: string, parse: string -> Parsed)
    requires Kept(reply) && !Contains(reply, DataPrefix) && parse(reply) == Json(None)
    ensures var v := AfterFetch(prev, error, city, county, township, PermitStream, Decoded([reply], parse), None);
      && v.screens == [WithText(prev, city, county, township, "")]
      && v.error == error
  {
    SplitWhole(reply, DataPrefix);
    assert KeptPieces([reply]) == [reply];
    ParseOne(reply, parse);
    assert DecodeChunk(reply, parse) == Success("");
    assert Decoded([reply], parse) == [Success("")];
    assert Consume("", [Success("")]) == Progress([""], None);
    assert Rendered(prev, city, county, township, [""]) == [WithText(prev, city, county, township, "")] by {
      assert [""][..0] == [];
    }
  }

  /** The JSON object `/api/get-location` answered with; `None` fields are missing keys. */
  datatype LocationData = LocationData(error: Field, city: Field, township: Field, county: Field)

  /** How the request to `/api/get-location` went: it threw, or it came back with a status and a body. */
  datatype LocationReply = LocationUnreachable(message: string) | LocationReplied(ok: bool, data: Result<LocationData>)

  /** The data `handleLocationFetch` goes on with, or the message of what it throws. */
  function LocationOutcome(reply: LocationReply): (r: Result<LocationData>)
    ensures reply.LocationReplied? && reply.data.Success? && !reply.ok ==>
      r == Failure(if Truthy(reply.data.value.error) then reply.data.value.error.value else SomethingWrong)
  {
    match reply
    case LocationUnreachable(m) => Failure(m)
    case LocationReplied(ok, data) =>
      match data
      case Failure(m) => Failure(m)
      case Success(d) =>
        if !ok then Failure(if Truthy(d.error) then d.error.value else SomethingWrong)
        else Success(d)
  }

  /** `setPermitInfo(data)`: the reply object itself becomes the state. */
  function Located(d: LocationData): PermitInfo {
    PermitInfo(d.city, d.township, d.county, None, None)
  }

  /** The reply the page receives for a response of the location route. */
  function Delivered(response: Location.Response): LocationReply {
    match response
    case Located(j) => LocationReplied(true, Success(LocationData(None, Some(j.city), Some(j.township), Some(j.county))))
    case Rejected(status, message) => LocationReplied(200 <= status < 300, Success(LocationData(Some(message), None, None, None)))
  }

  /**
   * Every error the location route reports reaches the page as its message,
   * and every jurisdiction it finds reaches it field for field.
   */
  lemma LocationRouteToPage(response: Location.Response)
    requires response.Rejected? ==> !(200 <= response.status < 300) && response.error != ""
    ensures response.Rejected? ==> LocationOutcome(Delivered(response)) == Failure(response.error)
    ensures response.Located? ==>
      (LocationOutcome(Delivered(response)) ==
       Success(LocationData(None, Some(response.place.city), Some(response.place.township), Some(response.place.county))))
  {
  }

  /** A located address lacking a city or a county is refused by the permit route. */
  lemma MissingCityOrCountyRefused(j: Location.Jurisdiction, upstream: PermitRoute.Upstream)
    requires j.city == "" || j.county == ""
    ensures PermitRoute.Post(Some(PermitRoute.PermitRequest(Some(j.city), Some(j.county), Some(j.township))), upstream)
            == (PermitRoute.JsonError(400, PermitRoute.LocationRequired), None)
  {
  }

  /** The page: its `permitInfo` and `error` state. */
  class PermitPage {
    var permitInfo: Option<PermitInfo>
    var error: string
    /** Every state `setPermitInfo` installed, in order: what was rendered. */
    ghost var Screens: seq<PermitInfo>

    constructor ()
      ensures permitInfo == None && error == "" && Screens == []
    {
      permitInfo := None;
      error := "";
      Screens := [];
    }

    /**
     * `fetchPermitInfo(city, county, township)`: read the body to its end,
     * appending each chunk's deltas to `result` and showing all of `result`
     * after every chunk; anything thrown becomes the error text.
     */
    method FetchPermitInfo(city: Field, county: Field, township: Field, fetched: PermitFetch, body: ChunkReader,
                           codec: Utf8Codec, parse: string -> Parsed)
      modifies this, body
      ensures var v := AfterFetch(old(permitInfo), old(error), city, county, township, fetched,
                                  Decoded(Texts(codec, [], old(body.pending)), parse), body.fault);
        Screens == old(Screens) + v.screens && permitInfo == v.permitInfo && error == v.error
      ensures body.fault == old(body.fault)
      ensures body.pending == Unread(fetched, codec, old(body.pending), parse)
    {
      match fetched
      case PermitUnreachable(m) =>
        error := m;
      case PermitNoBody =>
        error := NoBody;
      case PermitStream =>
        ReadStream(city, county, township, body, codec, parse);
    }

    /**
     * The `while (true)` loop of `fetchPermitInfo` over the response body:
     * every chunk that decodes adds its deltas to `result` and shows the
     * whole of it; the first one that throws, or a failed read, sets the error.
     */
    method ReadStream(city: Field, county: Field, township: Field, body: ChunkReader,
                      codec: Utf8Codec, parse: string -> Parsed)
      modifies this, body
      ensures var v := AfterFetch(old(permitInfo), old(error), city, county, township, PermitStream,
                                  Decoded(Texts(codec, [], old(body.pending)), parse), body.fault);
        Screens == old(Screens) + v.screens && permitInfo == v.permitInfo && error == v.error
      ensures body.fault == old(body.fault)
      ensures body.pending == Unread(PermitStream, codec, old(body.pending), parse)
    {
      ghost var all := Decoded(Texts(codec, [], body.pending), parse);
      ghost var target := Run(View(Screens, permitInfo, error), "", all, body.fault, city, county, township);
      RunIsAfterFetch(Screens, permitInfo, error, city, county, township, all, body.fault);
      ghost var rest := all;
      ghost var input := body.pending;
      ghost var start := |Screens|;
      ghost var taken: nat := 0;
      var result := "";
      var carry: Bytes := [];
      while true
        invariant body.fault == old(body.fault)
        invariant taken <= |input| && body.pending == input[taken..] && |Screens| == start + taken
        invariant rest == Decoded(Texts(codec, carry, body.pending), parse)
        invariant Run(View(Screens, permitInfo, error), result, rest, body.fault, city, county, township) == target
        decreases |body.pending|
      {
        ghost var before := body.pending;
        var r := body.Read();
        if r.Done? {
          break;
        }
        if r.ReadError? {
          error := r.message;
          break;
        }
        var (text, kept) := codec.decode(carry + r.value);
        var outcome := DecodeChunk(text, parse);
        ghost var tail := Decoded(Texts(codec, kept, body.pending), parse);
        DecodedStep(codec, carry, before, parse);
        RunStep(View(Screens, permitInfo, error), result, outcome, tail, body.fault, city, county, township);
        rest, carry, taken := tail, kept, taken + 1;
        if outcome.Failure? {
          error := outcome.message;
          break;
        }
        var next := WithText(permitInfo, city, county, township, result + outcome.value);
        result := result + outcome.value;
        permitInfo := Some(next);
        Screens := Screens + [next];
      }
      UnreadAt(codec, input, parse, |input| - |body.pending|, old(permitInfo), old(error), city, county, township, body.fault);
    }

    /**
     * `handleLocationFetch`: clear the error, ask for the jurisdiction, show it,
     * then run `fetchPermitInfo` with its city, county and township.
     */
    method HandleLocationFetch(reply: LocationReply, fetched: PermitFetch, body: ChunkReader,
                               codec: Utf8Codec, parse: string -> Parsed)
      modifies this, body
      ensures LocationOutcome(reply).Failure? ==>
        Screens == old(Screens) && permitInfo == old(permitInfo) && error == LocationOutcome(reply).message
      ensures LocationOutcome(reply).Success? ==>
        var d := LocationOutcome(reply).value;
        var v := AfterFetch(Some(Located(d)), "", d.city, d.county, d.township, fetched,
                            Decoded(Texts(codec, [], old(body.pending)), parse), body.fault);
        Screens == old(Screens) + [Located(d)] + v.screens && permitInfo == v.permitInfo && error == v.error
      ensures body.fault == old(body.fault)
      ensures LocationOutcome(reply).Failure? ==> body.pending == old(body.pending)
      ensures LocationOutcome(reply).Success? ==> body.pending == Unread(fetched, codec, old(body.pending), parse)
    {
      error := "";
      match LocationOutcome(reply)
      case Failure(m) =>
        error := m;
      case Success(data) =>
        permitInfo := Some(Located(data));
        Screens := Screens + [Located(data)];
        FetchPermitInfo(data.city, data.county, data.township, fetched, body, codec, parse);
    }
  }

  /**
   * What the loop of `fetchPermitInfo` does, step by step, to the page state
   * `v` from the value `result`, over the decoded chunks `outcomes`, when the
   * stream then ends with `fault`.
   */
  function Run(v: View, result: string, outcomes: seq<Result<string>>, fault: Option<string>,
               city: Field, county: Field, township: Field): View
    decreases |outcomes|
  {
    if outcomes == [] then (if fault.Some? then v.(error := fault.value) else v)
    else
      match outcomes[0]
      case Failure(m) => v.(error := m)
      case Success(delta) =>
        var next := WithText(v.permitInfo, city, county, township, result + delta);
        Run(View(v.screens + [next], Some(next), v.error), result + delta, outcomes[1..], fault, city, county, township)
  }

  /** The state `WithText` starts from, or one `WithText` made from it. */
  predicate Descends(info: Option<PermitInfo>, prev: Option<PermitInfo>, city: Field, county: Field, township: Field) {
    info == prev
    || (info.Some? && info.value.permitInfo.Some?
        && info.value == WithText(prev, city, county, township, info.value.permitInfo.value))
  }

  /**
   * The page after the loop, described by what `Consume` lists: one more screen
   * per value of `result`, the last of them current (else `info`), and the
   * first failure, else the stream's error, else `error`.
   */
  function Summary(screens: seq<PermitInfo>, info: Option<PermitInfo>, error: string, result: string,
                   outcomes: seq<Result<string>>, fault: Option<string>,
                   prev: Option<PermitInfo>, city: Field, county: Field, township: Field): View
  {
    Display(screens, info, error, Consume(result, outcomes), fault, prev, city, county, township)
  }

  /** The page once the values in `p` have been shown, starting from `screens`, `info` and `error`. */
  function Display(screens: seq<PermitInfo>, info: Option<PermitInfo>, error: string, p: Progress, fault: Option<string>,
                   prev: Option<PermitInfo>, city: Field, county: Field, township: Field): View
  {
    View(screens + Rendered(prev, city, county, township, p.shown),
         if p.shown == [] then info else Some(WithText(prev, city, county, township, p.shown[|p.shown| - 1])),
         if p.failure.Some? then p.failure.value else if fault.Some? then fault.value else error)
  }

  /**
   * Running the loop from a state that descends from `prev` appends one screen
   * per value `Consume` lists, leaves the last of them current, and ends with
   * the first failure, else the stream's error, else the error it started with.
   */
  lemma {:induction false} RunSpec(screens: seq<PermitInfo>, info: Option<PermitInfo>, error: string, result: string,
                                   outcomes: seq<Result<string>>, fault: Option<string>,
                                   prev: Option<PermitInfo>, city: Field, county: Field, township: Field)
    requires Descends(info, prev, city, county, township)
    ensures Run(View(screens, info, error), result, outcomes, fault, city, county, township)
            == Summary(screens, info, error, result, outcomes, fault, prev, city, county, township)
    decreases |outcomes|
  {
    if outcomes == [] {
      RunSpecStop(screens, info, error, result, outcomes, fault, prev, city, county, township);
    } else {
      var o, tail := outcomes[0], outcomes[1..];
      assert outcomes == [o] + tail;
      if o.Failure? {
        RunSpecStop(screens, info, error, result, outcomes, fault, prev, city, county, township);
      } else {
        var next := WithText(info, city, county, township, result + o.value);
        RunSpec(screens + [next], Some(next), error, result + o.value, tail, fault, prev, city, county, township);
        RunSpecSuccess(screens, info, error, result, o.value, tail, fault, prev, city, county, township);
      }
    }
  }

  /** `RunSpec` when the loop stops at once: the stream ends, or the first chunk throws. */
  lemma RunSpecStop(screens: seq<PermitInfo>, info: Option<PermitInfo>, error: string, result: string,
                    outcomes: seq<Result<string>>, fault: Option<string>,
                    prev: Option<PermitInfo>, city: Field, county: Field, township: Field)
    requires outcomes == [] || outcomes[0].Failure?
    ensures Run(View(screens, info, error), result, outcomes, fault, city, county, township)
            == Summary(screens, info, error, result, outcomes, fault, prev, city, county, township)
  {
    assert Rendered(prev, city, county, township, []) == [];
    assert screens + [] == screens;
  }

  /** The inductive step of `RunSpec` for a chunk that decodes to `delta`. */
  lemma RunSpecSuccess(screens: seq<PermitInfo>, info: Option<PermitInfo>, error: string, result: string, delta: string,
                       tail: seq<Result<string>>, fault: Option<string>,
                       prev: Option<PermitInfo>, city: Field, county: Field, township: Field)
    requires Descends(info, prev, city, county, township)
    requires var next := WithText(info, city, county, township, result + delta);
      Run(View(screens + [next], Some(next), error), result + delta, tail, fault, city, county, township)
      == Summary(screens + [next], Some(next), error, result + delta, tail, fault, prev, city, county, township)
    ensures Run(View(screens, info, error), result, [Success(delta)] + tail, fault, city, county, township)
            == Summary(screens, info, error, result, [Success(delta)] + tail, fault, prev, city, county, township)
  {
    RunStep(View(screens, info, error), result, Success(delta), tail, fault, city, county, township);
    SummaryStep(screens, info, error, result, delta, tail, fault, prev, city, county, township);
  }

  /** `Summary` after a chunk that decodes to `delta` is `Summary` with that chunk's screen already added. */
  lemma SummaryStep(screens: seq<PermitInfo>, info: Option<PermitInfo>, error: string, result: string, delta: string,
                    tail: seq<Result<string>>, fault: Option<string>,
                    prev: Option<PermitInfo>, city: Field, county: Field, township: Field)
    requires Descends(info, prev, city, county, township)
    ensures var next := WithText(info, city, county, township, result + delta);
      Summary(screens + [next], Some(next), error, result + delta, tail, fault, prev, city, county, township)
      == Summary(screens, info, error, result, [Success(delta)] + tail, fault, prev, city, county, township)
  {
    ConsumeStep(result, Success(delta), tail);
    var q := Consume(result + delta, tail);
    DisplayStep(screens, info, error, result + delta, q, fault, prev, city, county, township);
  }

  /** Showing `x` and then the values in `q` is showing `x`'s screen first, then `q` from there. */
  lemma DisplayStep(screens: seq<PermitInfo>, info: Option<PermitInfo>, error: string, x: string, q: Progress,
                    fault: Option<string>, prev: Option<PermitInfo>, city: Field, county: Field, township: Field)
    requires Descends(info, prev, city, county, township)
    ensures var next := WithText(info, city, county, township, x);
      Display(screens + [next], Some(next), error, q, fault, prev, city, county, township)
      == Display(screens, info, error, Progress([x] + q.shown, q.failure), fault, prev, city, county, township)
  {
    WithTextDescends(info, prev, city, county, township, x);
    RenderedCons(prev, city, county, township, x, q.shown);
    var next := WithText(info, city, county, township, x);
    var shown := [x] + q.shown;
    assert q.shown != [] ==> shown[|shown| - 1] == q.shown[|q.shown| - 1];
    assert screens + [next] + Rendered(prev, city, county, township, q.shown)
        == screens + Rendered(prev, city, county, township, shown);
  }

  /** Updating a state that descends from `prev` is updating `prev`. */
  lemma WithTextDescends(info: Option<PermitInfo>, prev: Option<PermitInfo>, city: Field, county: Field, township: Field,
                         text: string)
    requires Descends(info, prev, city, county, township)
    ensures WithText(info, city, county, township, text) == WithText(prev, city, county, township, text)
  {
  }

  /** `Rendered` of one more value in front. */
  lemma RenderedCons(prev: Option<PermitInfo>, city: Field, county: Field, township: Field, x: string, rest: seq<string>)
    ensures Rendered(prev, city, county, township, [x] + rest)
            == [WithText(prev, city, county, township, x)] + Rendered(prev, city, county, township, rest)
  {
    assert ([x] + rest)[0] == x && ([x] + rest)[1..] == rest;
  }

  /**
   * The loop and `AfterFetch` agree: running the loop from the page's state
   * adds exactly `AfterFetch`'s screens and ends in its state and error.
   */
  lemma RunIsAfterFetch(screens: seq<PermitInfo>, prev: Option<PermitInfo>, error: string,
                        city: Field, county: Field, township: Field, outcomes: seq<Result<string>>, fault: Option<string>)
    ensures var v := AfterFetch(prev, error, city, county, township, PermitStream, outcomes, fault);
      Run(View(screens, prev, error), "", outcomes, fault, city, county, township)
      == View(screens + v.screens, v.permitInfo, v.error)
  {
    RunSpec(screens, prev, error, "", outcomes, fault, prev, city, county, township);
    RenderedSpec(prev, city, county, township, Consume("", outcomes).shown);
  }

  /** Decoding the chunks from `carry` is the first chunk's text decoded, then the rest from what it kept. */
  lemma DecodedStep(codec: Utf8Codec, carry: Bytes, chunks: seq<Bytes>, parse: string -> Parsed)
    requires chunks != []
    ensures var (text, kept) := codec.decode(carry + chunks[0]);
      Decoded(Texts(codec, carry, chunks), parse) == [DecodeChunk(text, parse)] + Decoded(Texts(codec, kept, chunks[1..]), parse)
  {
    var (text, kept) := codec.decode(carry + chunks[0]);
    var ts := Texts(codec, carry, chunks);
    assert ts == [text] + Texts(codec, kept, chunks[1..]);
    assert ts[0] == text && ts[1..] == Texts(codec, kept, chunks[1..]);
  }

  /** One more outcome in front: a failure stops there, a delta extends `result` and is shown. */
  lemma ConsumeStep(result: string, o: Result<string>, rest: seq<Result<string>>)
    ensures o.Failure? ==> Consume(result, [o] + rest) == Progress([], Some(o.message))
    ensures o.Success? ==>
      (Consume(result, [o] + rest) ==
       Progress([result + o.value] + Consume(result + o.value, rest).shown, Consume(result + o.value, rest).failure))
  {
    assert ([o] + rest)[0] == o && ([o] + rest)[1..] == rest;
  }

  /** One step of the loop on a chunk that decodes to `o`. */
  lemma RunStep(v: View, result: string, o: Result<string>, rest: seq<Result<string>>, fault: Option<string>,
                city: Field, county: Field, township: Field)
    ensures o.Failure? ==> Run(v, result, [o] + rest, fault, city, county, township) == v.(error := o.message)
    ensures o.Success? ==>
      var next := WithText(v.permitInfo, city, county, township, result + o.value);
      Run(v, result, [o] + rest, fault, city, county, township)
      == Run(View(v.screens + [next], Some(next), v.error), result + o.value, rest, fault, city, county, township)
  {
    assert ([o] + rest)[0] == o && ([o] + rest)[1..] == rest;
  }
}
