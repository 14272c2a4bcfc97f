/** Checkpoint namespaces and their `|name:id|name:id` storage key. */
module Namespaces {
  import opened Wrappers

  datatype Segment = Segment(nodeName: string, invocationId: string)

  datatype CheckpointNamespace = CheckpointNamespace(segments: seq<Segment>) {

    function Child(nodeName: string, invocationId: string): CheckpointNamespace {
      CheckpointNamespace(segments + [Segment(nodeName, invocationId)])
    }

    function Parent(): Option<CheckpointNamespace> {
      if segments == [] then None else Some(CheckpointNamespace(segments[..|segments| - 1]))
    }

    /** The wire format: a left fold that appends `|name:id` for each segment. */
    function AsStr(): string {
      Print(segments)
    }

    /** No separator occurs where the parser would split. */
    ghost predicate WellFormed() {
      forall seg :: seg in segments ==> Clean(seg)
    }
  }

  ghost predicate Clean(seg: Segment) {
    '|' !in seg.nodeName && ':' !in seg.nodeName && '|' !in seg.invocationId
  }

  function Print(segments: seq<Segment>): string {
    if segments == [] then ""
    else Print(segments[..|segments| - 1]) + "|" + Piece(segments[|segments| - 1])
  }

  function Piece(seg: Segment): string {
    seg.nodeName + ":" + seg.invocationId
  }

  function Parse(s: string): CheckpointNamespace {
    if s == "" then CheckpointNamespace([])
    else CheckpointNamespace(ParsePieces(Split(TrimStart(s, '|'), '|')))
  }

  /** `filter_map` over the pieces: a piece without `:` is skipped. */
  function ParsePieces(pieces: seq<string>): seq<Segment> {
    if pieces == [] then []
    else match SplitOnce(pieces[0], ':')
      case None => ParsePieces(pieces[1..])
      case Some((name, id)) => [Segment(name, id)] + ParsePieces(pieces[1..])
  }

  /** `str::trim_start_matches` for a character. */
  function TrimStart(s: string, c: char): string {
    if s != "" && s[0] == c then TrimStart(s[1..], c) else s
  }

  /** `str::split` for a character: one more piece than separators. */
  function Split(s: string, c: char): (pieces: seq<string>)
    ensures pieces != []
    ensures forall p :: p in pieces ==> c !in p
  {
    if s == "" then [""]
    else if s[0] == c then [""] + Split(s[1..], c)
    else
      var rest := Split(s[1..], c);
      [[s[0]] + rest[0]] + rest[1..]
  }

  /** `str::split_once` for a character: splits at the first occurrence. */
  function SplitOnce(s: string, c: char): (r: Option<(string, string)>)
    ensures r.None? <==> c !in s
    ensures r.Some? ==> s == r.value.0 + [c] + r.value.1 && c !in r.value.0
  {
    if s == "" then None
    else if s[0] == c then Some(("", s[1..]))
    else match SplitOnce(s[1..], c)
      case None => None
      case Some((a, b)) => Some(([s[0]] + a, b))
  }

  // ----- The printer, from the front -----

  /** The printed segments without the leading separator. */
  ghost function Body(segments: seq<Segment>): string
    requires segments != []
  {
    if |segments| == 1 then Piece(segments[0])
    else Piece(segments[0]) + "|" + Body(segments[1..])
  }

  lemma {:induction false} BodySnoc(segments: seq<Segment>, last: Segment)
    requires segments != []
    ensures Body(segments + [last]) == Body(segments) + "|" + Piece(last)
  {
    assert (segments + [last])[1..] == segments[1..] + [last];
    if |segments| > 1 {
      BodySnoc(segments[1..], last);
    }
  }

  lemma {:induction false} PrintIsBody(segments: seq<Segment>)
    requires segments != []
    ensures Print(segments) == "|" + Body(segments)
  {
    var n := |segments| - 1;
    if n > 0 {
      PrintIsBody(segments[..n]);
      BodySnoc(segments[..n], segments[n]);
      assert segments == segments[..n] + [segments[n]];
    }
  }

  // ----- The parser undoes the printer -----

  lemma {:induction false} SplitPiece(piece: string, rest: string, c: char)
    requires c !in piece
    ensures Split(piece, c) == [piece]
    ensures Split(piece + [c] + rest, c) == [piece] + Split(rest, c)
  {
    if piece == "" {
      assert [c] + rest == piece + [c] + rest;
    } else {
      assert piece[0] in piece && piece == [piece[0]] + piece[1..];
      SplitPiece(piece[1..], rest, c);
      assert (piece + [c] + rest)[1..] == piece[1..] + [c] + rest;
    }
  }

  lemma {:induction false} SplitOncePiece(seg: Segment)
    requires ':' !in seg.nodeName
    ensures SplitOnce(Piece(seg), ':') == Some((seg.nodeName, seg.invocationId))
    decreases |seg.nodeName|
  {
    var s := Piece(seg);
    if seg.nodeName != "" {
      var shorter := Segment(seg.nodeName[1..], seg.invocationId);
      assert s[1..] == Piece(shorter) && s[0] == seg.nodeName[0] && seg.nodeName[0] in seg.nodeName;
      assert seg.nodeName == [s[0]] + shorter.nodeName;
      SplitOncePiece(shorter);
    } else {
      assert s[1..] == seg.invocationId;
    }
  }

  lemma CleanPiece(seg: Segment)
    requires Clean(seg)
    ensures var piece := Piece(seg);
      && '|' !in piece && piece != "" && piece[0] != '|'
      && SplitOnce(piece, ':') == Some((seg.nodeName, seg.invocationId))
  {
    SplitOncePiece(seg);
  }

  lemma {:induction false} ParseBody(segments: seq<Segment>)
    requires segments != [] && CheckpointNamespace(segments).WellFormed()
    ensures ParsePieces(Split(Body(segments), '|')) == segments
    ensures Body(segments) != "" && Body(segments)[0] != '|'
  {
    hide Piece, SplitOnce, Split, Clean;
    var piece, rest := Piece(segments[0]), segments[1..];
    CleanPiece(segments[0]);
    assert segments == [segments[0]] + rest;
    if |segments| == 1 {
      SplitPiece(piece, "", '|');
      assert [piece][1..] == [];
    } else {
      ParseBody(rest);
      SplitPiece(piece, Body(rest), '|');
      assert piece + ['|'] + Body(rest) == Body(segments);
      assert ([piece] + Split(Body(rest), '|'))[1..] == Split(Body(rest), '|');
    }
  }

  lemma {:induction false} ParsePiecesClean(pieces: seq<string>)
    requires forall p :: p in pieces ==> '|' !in p
    ensures forall seg :: seg in ParsePieces(pieces) ==> Clean(seg)
  {
    if pieces != [] {
      assert pieces[0] in pieces;
      ParsePiecesClean(pieces[1..]);
    }
  }

  /** Whatever the input string, the parser yields a well-formed namespace. */
  lemma ParseWellFormed(s: string)
    ensures Parse(s).WellFormed()
  {
    ParsePiecesClean(Split(TrimStart(s, '|'), '|'));
  }

  /** A namespace survives printing and parsing exactly when it is well-formed. */
  lemma RoundTrip(ns: CheckpointNamespace)
    ensures Parse(ns.AsStr()) == ns <==> ns.WellFormed()
  {
    ParseWellFormed(ns.AsStr());
    if ns.WellFormed() && ns.segments != [] {
      var body := Body(ns.segments);
      PrintIsBody(ns.segments);
      ParseBody(ns.segments);
      assert ns.AsStr()[1..] == body;
      assert TrimStart(body, '|') == body;
    }
  }

  /** Printing after parsing is idempotent: it normalizes every string. */
  lemma NormalForm(s: string)
    ensures Parse(Parse(s).AsStr()) == Parse(s)
  {
    ParseWellFormed(s);
    RoundTrip(Parse(s));
  }

  /** Distinct well-formed namespaces have distinct storage keys. */
  lemma KeysDistinct(a: CheckpointNamespace, b: CheckpointNamespace)
    requires a.WellFormed() && b.WellFormed() && a.AsStr() == b.AsStr()
    ensures a == b
  {
    RoundTrip(a);
    RoundTrip(b);
  }

  /** The strings that are some namespace's printed form: empty, or a `|` before pieces that each hold a `:`. */
  ghost predicate Canonical(s: string) {
    s == "" || (s[0] == '|' && forall p :: p in Split(s[1..], '|') ==> ':' in p)
  }

  lemma {:induction false} RebuildBody(s: string, pieces: seq<string>)
    requires pieces == Split(s, '|') && forall p :: p in pieces ==> ':' in p
    ensures ParsePieces(pieces) != [] && Body(ParsePieces(pieces)) == s
    decreases |pieces|
  {
    var segments := ParsePieces(pieces);
    var piece := pieces[0];
    assert piece in pieces;
    SplitHead(s);
    if |pieces| > 1 {
      var rest := s[|piece| + 1..];
      RebuildBody(rest, pieces[1..]);
      assert segments[1..] == ParsePieces(pieces[1..]);
    }
  }

  lemma {:induction false} SplitHead(s: string)
    ensures var pieces := Split(s, '|');
      if |pieces| == 1 then s == pieces[0]
      else |pieces[0]| < |s| && s == pieces[0] + "|" + s[|pieces[0]| + 1..]
           && pieces[1..] == Split(s[|pieces[0]| + 1..], '|')
  {
    if s != "" && s[0] != '|' {
      SplitHead(s[1..]);
      var rest := Split(s[1..], '|');
      if |rest| > 1 {
        assert s[1..][|rest[0]| + 1..] == s[|rest[0]| + 2..];
      }
    }
  }

  lemma {:induction false} BodyPieces(segments: seq<Segment>)
    requires segments != [] && CheckpointNamespace(segments).WellFormed()
    ensures forall p :: p in Split(Body(segments), '|') ==> ':' in p
  {
    var piece := Piece(segments[0]);
    assert Clean(segments[0]) && piece[|segments[0].nodeName|] == ':';
    if |segments| == 1 {
      SplitPiece(piece, "", '|');
    } else {
      BodyPieces(segments[1..]);
      SplitPiece(piece, Body(segments[1..]), '|');
      assert piece + ['|'] + Body(segments[1..]) == Body(segments);
    }
  }

  /** A stored key is reproduced by parsing and printing it exactly when it is canonical. */
  lemma ReprintIff(s: string)
    ensures Parse(s).AsStr() == s <==> Canonical(s)
  {
    if s != "" {
      var segments := Parse(s).segments;
      ParseWellFormed(s);
      if Parse(s).AsStr() == s {
        PrintIsBody(segments);
        BodyPieces(segments);
        assert s[1..] == Body(segments);
      }
      if Canonical(s) {
        var t := s[1..];
        RebuildBody(t, Split(t, '|'));
        assert t == "" || t[0] != '|' by {
          assert Split(t, '|')[0] in Split(t, '|');
        }
        assert TrimStart(s, '|') == TrimStart(t, '|') == t;
        PrintIsBody(segments);
        assert s == "|" + t;
      }
    }
  }

  // ----- What any string parses to -----

  /** The pieces with a bar between each two. */
  function Barred(pieces: seq<string>): string
    requires pieces != []
  {
    if |pieces| == 1 then pieces[0] else pieces[0] + "|" + Barred(pieces[1..])
  }

  lemma {:induction false} SplitBarred(pieces: seq<string>)
    requires pieces != [] && forall p :: p in pieces ==> '|' !in p
    ensures Split(Barred(pieces), '|') == pieces
  {
    assert pieces[0] in pieces;
    if |pieces| == 1 {
      SplitPiece(pieces[0], "", '|');
    } else {
      SplitBarred(pieces[1..]);
      SplitPiece(pieces[0], Barred(pieces[1..]), '|');
    }
  }

  /** Leading bars only make empty pieces, and those are skipped. */
  lemma {:induction false} LeadingBars(s: string)
    ensures Parse(s).segments == ParsePieces(Split(s, '|'))
    ensures ParsePieces(Split(TrimStart(s, '|'), '|')) == ParsePieces(Split(s, '|'))
  {
    assert SplitOnce("", ':') == None && [""][1..] == [];
    if s != "" && s[0] == '|' {
      LeadingBars(s[1..]);
      assert ([""] + Split(s[1..], '|'))[1..] == Split(s[1..], '|');
    }
  }

  /** Split at the first colon, the piece is this segment. */
  predicate SplitsTo(piece: string, seg: Segment) {
    ':' !in seg.nodeName && piece == seg.nodeName + ":" + seg.invocationId
  }

  /** Which piece each segment was read from. */
  ghost predicate ReadFrom(segments: seq<Segment>, pieces: seq<string>, at: seq<nat>) {
    && |at| == |segments|
    && (forall k :: 0 <= k < |at| ==> at[k] < |pieces| && SplitsTo(pieces[at[k]], segments[k]))
    && (forall j, k :: 0 <= j < k < |at| ==> at[j] < at[k])
    && (forall i: nat :: i < |pieces| && ':' in pieces[i] ==> i in at)
  }

  function Shifted(at: seq<nat>): (r: seq<nat>)
    ensures |r| == |at| && forall k :: 0 <= k < |r| ==> r[k] == at[k] + 1
  {
    seq(|at|, k requires 0 <= k < |at| => at[k] + 1)
  }

  lemma ReadSkip(segments: seq<Segment>, pieces: seq<string>, at: seq<nat>)
    requires pieces != [] && ':' !in pieces[0] && ReadFrom(segments, pieces[1..], at)
    ensures ReadFrom(segments, pieces, Shifted(at))
  {
    hide SplitsTo;
    var r := Shifted(at);
    forall i: nat | i < |pieces| && ':' in pieces[i] ensures i in r {
      assert pieces[1..][i - 1] == pieces[i];
      var k :| 0 <= k < |at| && at[k] == i - 1;
      assert r[k] == i;
    }
  }

  lemma ReadTake(seg: Segment, segments: seq<Segment>, pieces: seq<string>, at: seq<nat>)
    requires pieces != [] && SplitsTo(pieces[0], seg)
    requires ReadFrom(segments, pieces[1..], at)
    ensures ReadFrom([seg] + segments, pieces, [0] + Shifted(at))
  {
    hide SplitsTo;
    var r, all := [0] + Shifted(at), [seg] + segments;
    forall k | 0 <= k < |r| ensures r[k] < |pieces| && SplitsTo(pieces[r[k]], all[k]) {
      if k > 0 {
        assert all[k] == segments[k - 1] && pieces[r[k]] == pieces[1..][at[k - 1]];
      }
    }
    forall i: nat | i < |pieces| && ':' in pieces[i] ensures i in r {
      AllTaken(pieces, at, i);
    }
  }

  lemma AllTaken(pieces: seq<string>, at: seq<nat>, i: nat)
    requires i < |pieces| && ':' in pieces[i]
    requires forall k: nat :: k < |pieces[1..]| && ':' in pieces[1..][k] ==> k in at
    ensures i in [0] + Shifted(at)
  {
    if i > 0 {
      assert pieces[1..][i - 1] == pieces[i];
      var k :| 0 <= k < |at| && at[k] == i - 1;
      assert ([0] + Shifted(at))[k + 1] == i;
    }
  }

  lemma {:induction false} PiecesRead(pieces: seq<string>) returns (at: seq<nat>)
    ensures ReadFrom(ParsePieces(pieces), pieces, at)
  {
    hide SplitOnce;
    if pieces == [] {
      at := [];
    } else {
      at := PiecesRead(pieces[1..]);
      hide ReadFrom;
      match SplitOnce(pieces[0], ':') {
        case None =>
          ReadSkip(ParsePieces(pieces[1..]), pieces, at);
          at := Shifted(at);
        case Some((name, id)) =>
          ReadTake(Segment(name, id), ParsePieces(pieces[1..]), pieces, at);
          at := [0] + Shifted(at);
      }
    }
  }

  /**
   * What a string parses to: its pieces between bars that hold a colon, in order, each split at its first
   * colon; the other pieces are skipped.
   */
  lemma ParseSpelledOut(pieces: seq<string>) returns (at: seq<nat>)
    requires pieces != [] && forall p :: p in pieces ==> '|' !in p
    ensures ReadFrom(Parse(Barred(pieces)).segments, pieces, at)
  {
    SplitBarred(pieces);
    LeadingBars(Barred(pieces));
    at := PiecesRead(pieces);
  }

  /** `parent` undoes `child`, and a child's key extends its parent's. */
  lemma ChildParent(ns: CheckpointNamespace, nodeName: string, invocationId: string)
    ensures ns.Child(nodeName, invocationId).Parent() == Some(ns)
    ensures ns.Child(nodeName, invocationId).AsStr() == ns.AsStr() + "|" + nodeName + ":" + invocationId
  {
    var child := ns.Child(nodeName, invocationId);
    assert child.segments[..|ns.segments|] == ns.segments;
  }

  /** Two segments glued by an unescaped `:` or `|` come back different. */
  lemma UncleanNamesAreLost()
    ensures Parse(CheckpointNamespace([Segment("a:b", "1")]).AsStr())
         != CheckpointNamespace([Segment("a:b", "1")])
    ensures Parse(CheckpointNamespace([Segment("a|b", "1")]).AsStr())
         != CheckpointNamespace([Segment("a|b", "1")])
  {
    var colon, pipe := Segment("a:b", "1"), Segment("a|b", "1");
    RoundTrip(CheckpointNamespace([colon]));
    RoundTrip(CheckpointNamespace([pipe]));
    assert colon in [colon] && "a:b"[1] == ':' && !Clean(colon);
    assert pipe in [pipe] && "a|b"[1] == '|' && !Clean(pipe);
  }
}
