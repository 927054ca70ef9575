/**
 The byte layout of a multipart request body, and an independent reader for it that follows the
 grammar of section 5.1.1 of RFC 2046.
 */
module Multipart {
  import opened Codes

  const BOUNDARY_LENGTH: nat := 22
  const CR: byte := 13
  const CRLF: bytes := [13, 10]
  const DASHES: bytes := [45, 45]  // "--"

  function Ascii(s: string): (b: bytes)
    ensures |b| == |s|
  {
    seq(|s|, i requires 0 <= i < |s| => (s[i] as int % 256) as byte)
  }

  const CONTENT_TYPE: bytes := Ascii("Content-Type: ")
  const CONTENT_ID: bytes := Ascii("Content-ID: ")
  const RELATED: bytes := Ascii("multipart/related;boundary=")

  predicate IsBoundaryCharacter(c: byte) {
    48 <= c <= 57 || 65 <= c <= 90 || 97 <= c <= 122
  }

  predicate IsBoundary(b: bytes) {
    |b| == BOUNDARY_LENGTH && forall i :: 0 <= i < |b| ==> IsBoundaryCharacter(b[i])
  }

  // ---------- what the builder writes ----------

  function OpenLine(b: bytes): bytes { (DASHES + b) + CRLF }

  function Closing(b: bytes): bytes { DASHES + b + DASHES }

  function CloseLine(b: bytes): bytes { Closing(b) + CRLF }

  function TypeLine(value: bytes): bytes { (CONTENT_TYPE + value) + CRLF }

  function IdLine(value: bytes): bytes { (CONTENT_ID + value) + CRLF }

  /** One addition to a request: a tuple under its own sub-boundary, or a single part. */
  datatype Section =
    | Tuple(sub: bytes, metaType: bytes, meta: bytes, payloadType: bytes, payload: bytes)
    | Single(contentType: bytes, contentId: bytes, meta: bytes)

  /** A part with one header line. */
  function Part(kind: bytes, content: bytes): bytes { TypeLine(kind) + CRLF + content }

  function SubPart(sub: bytes, kind: bytes, content: bytes): bytes {
    OpenLine(sub) + Part(kind, content) + CRLF
  }

  function Encode(b: bytes, x: Section): bytes {
    match x
    case Tuple(sub, metaType, meta, payloadType, payload) =>
      (OpenLine(b) + TypeLine(RELATED + sub) + CRLF)
      + SubPart(sub, metaType, meta)
      + SubPart(sub, payloadType, payload)
      + CloseLine(sub)
    case Single(contentType, contentId, meta) =>
      OpenLine(b) + (TypeLine(contentType) + IdLine(contentId) + CRLF + meta) + CRLF
  }

  function Body(b: bytes, xs: seq<Section>): bytes {
    if xs == [] then [] else Body(b, xs[..|xs| - 1]) + Encode(b, xs[|xs| - 1])
  }

  // ---------- the layout, written out ----------

  lemma AsciiIsCode(s: string, i: nat)
    requires i < |s| && s[i] < 128 as char
    ensures Ascii(s)[i] as int == s[i] as int
  {
  }

  /** The constant texts of the layout. */
  lemma TextsAreLiteral()
    ensures CRLF == Ascii("\r\n") && DASHES == Ascii("--")
    ensures CONTENT_TYPE == Ascii("Content-Type: ") && CONTENT_ID == Ascii("Content-ID: ")
    ensures RELATED == Ascii("multipart/related;boundary=")
  {
  }

  lemma FlatHead(d: bytes, b: bytes, c: bytes, t: bytes, r: bytes, s: bytes)
    ensures ((d + b) + c) + ((t + (r + s)) + c) + c == d + b + c + t + r + s + c + c
  {
  }

  lemma FlatPart(d: bytes, s: bytes, c: bytes, t: bytes, kind: bytes, content: bytes)
    ensures ((d + s) + c) + (((t + kind) + c) + c + content) + c == d + s + c + t + kind + c + c + content + c
  {
  }

  /** One of the two parts of a tuple. */
  lemma SubPartLayout(sub: bytes, kind: bytes, content: bytes)
    ensures SubPart(sub, kind, content)
            == Ascii("--") + sub + Ascii("\r\n") + Ascii("Content-Type: ") + kind + Ascii("\r\n") + Ascii("\r\n")
               + content + Ascii("\r\n")
  {
    TextsAreLiteral();
    FlatPart(Ascii("--"), sub, Ascii("\r\n"), Ascii("Content-Type: "), kind, content);
  }

  /** What a tuple looks like in a body: its own type line, two parts between sub-boundaries, a closing sub-boundary. */
  lemma TupleLayout(b: bytes, sub: bytes, metaType: bytes, meta: bytes, payloadType: bytes, payload: bytes)
    ensures
      var newLine := Ascii("\r\n");
      var head := Ascii("--") + b + newLine + Ascii("Content-Type: ") + Ascii("multipart/related;boundary=") + sub
                  + newLine + newLine;
      var first := Ascii("--") + sub + newLine + Ascii("Content-Type: ") + metaType + newLine + newLine + meta
                   + newLine;
      var second := Ascii("--") + sub + newLine + Ascii("Content-Type: ") + payloadType + newLine + newLine + payload
                    + newLine;
      Encode(b, Tuple(sub, metaType, meta, payloadType, payload))
      == head + first + second + (Ascii("--") + sub + Ascii("--") + newLine)
  {
    TextsAreLiteral();
    SubPartLayout(sub, metaType, meta);
    SubPartLayout(sub, payloadType, payload);
    FlatHead(Ascii("--"), b, Ascii("\r\n"), Ascii("Content-Type: "), Ascii("multipart/related;boundary="), sub);
    hide Ascii;
  }

  lemma FlatSingle(d: bytes, b: bytes, c: bytes, t: bytes, kind: bytes, i: bytes, id: bytes, content: bytes)
    ensures ((d + b) + c) + (((t + kind) + c) + ((i + id) + c) + c + content) + c
            == d + b + c + t + kind + c + i + id + c + c + content + c
  {
  }

  lemma SingleLayout(b: bytes, contentType: bytes, contentId: bytes, meta: bytes)
    ensures
      var newLine := Ascii("\r\n");
      Encode(b, Single(contentType, contentId, meta))
      == Ascii("--") + b + newLine + Ascii("Content-Type: ") + contentType + newLine + Ascii("Content-ID: ") + contentId
         + newLine + newLine + meta + newLine
    ensures Closing(b) == Ascii("--") + b + Ascii("--")
    ensures OpenLine(b) == Ascii("--") + b + Ascii("\r\n")
    ensures CloseLine(b) == Ascii("--") + b + Ascii("--") + Ascii("\r\n")
  {
    TextsAreLiteral();
    FlatSingle(Ascii("--"), b, Ascii("\r\n"), Ascii("Content-Type: "), contentType, Ascii("Content-ID: "), contentId,
               meta);
  }

  // ---------- the reader ----------

  /** Splits at the first occurrence of `d`. */
  function Cut(s: bytes, d: bytes): (r: Option<(bytes, bytes)>)
    requires d != []
    ensures r.Some? ==> s == r.value.0 + d + r.value.1
  {
    if |s| < |d| then None
    else if s[..|d|] == d then Some(([], s[|d|..]))
    else
      match Cut(s[1..], d)
      case None => None
      case Some((a, b)) => Some(([s[0]] + a, b))
  }

  function Split(s: bytes, d: bytes): (pieces: seq<bytes>)
    requires d != []
    ensures pieces != []
    decreases |s|
  {
    match Cut(s, d)
    case None => [s]
    case Some((a, b)) => [a] + Split(b, d)
  }

  function Delimiter(b: bytes): bytes { CRLF + (DASHES + b) }

  datatype Entity = Entity(headers: seq<bytes>, content: bytes)

  /** Header lines up to the first empty line; everything after that is content. */
  function ReadEntity(s: bytes): Option<Entity>
    decreases |s|
  {
    match Cut(s, CRLF)
    case None => None
    case Some((line, rest)) =>
      if line == [] then Some(Entity([], rest))
      else
        match ReadEntity(rest)
        case None => None
        case Some(e) => Some(Entity([line] + e.headers, e.content))
  }

  /** Linear white space may pad a delimiter line. */
  function SkipPadding(s: bytes): bytes {
    if s != [] && (s[0] == 32 || s[0] == 9) then SkipPadding(s[1..]) else s
  }

  /** The encapsulated parts up to the close delimiter; what follows that is epilogue. */
  function ReadParts(pieces: seq<bytes>): Option<seq<Entity>> {
    if pieces == [] then None
    else if DASHES <= pieces[0] then Some([])
    else
      var p := SkipPadding(pieces[0]);
      if !(CRLF <= p) then None
      else
        match ReadEntity(p[2..])
        case None => None
        case Some(e) =>
          match ReadParts(pieces[1..])
          case None => None
          case Some(es) => Some([e] + es)
  }

  /** A multipart body under one boundary: the preamble is dropped, at least one part is demanded. */
  function ReadMultipart(b: bytes, body: bytes): Option<seq<Entity>> {
    match ReadParts(Split(CRLF + body, Delimiter(b))[1..])
    case None => None
    case Some(es) => if es == [] then None else Some(es)
  }

  /** Interprets a part: a nested multipart of two parts is a tuple, anything else a single. */
  function ReadSection(e: Entity): Option<Section> {
    if |e.headers| == 1 && CONTENT_TYPE + RELATED <= e.headers[0] then
      var sub := e.headers[0][|CONTENT_TYPE + RELATED|..];
      match ReadMultipart(sub, e.content)
      case None => None
      case Some(es) =>
        if |es| == 2 && |es[0].headers| == 1 && |es[1].headers| == 1
           && CONTENT_TYPE <= es[0].headers[0] && CONTENT_TYPE <= es[1].headers[0] then
          Some(Tuple(sub, es[0].headers[0][|CONTENT_TYPE|..], es[0].content,
                     es[1].headers[0][|CONTENT_TYPE|..], es[1].content))
        else None
    else if |e.headers| == 2 && CONTENT_TYPE <= e.headers[0] && CONTENT_ID <= e.headers[1] then
      Some(Single(e.headers[0][|CONTENT_TYPE|..], e.headers[1][|CONTENT_ID|..], e.content))
    else None
  }

  function ReadSections(es: seq<Entity>): Option<seq<Section>> {
    if es == [] then Some([])
    else
      match ReadSection(es[0])
      case None => None
      case Some(x) =>
        match ReadSections(es[1..])
        case None => None
        case Some(xs) => Some([x] + xs)
  }

  /** Reads a whole request body back into the sections it carries. */
  function Read(b: bytes, body: bytes): Option<seq<Section>> {
    match ReadMultipart(b, body)
    case None => None
    case Some(es) => ReadSections(es)
  }

  // ---------- where a delimiter can occur ----------

  predicate OccursAt(s: bytes, d: bytes, i: nat) {
    i + |d| <= |s| && s[i..i + |d|] == d
  }

  ghost predicate Absent(s: bytes, d: bytes) {
    forall i: nat :: i < |s| ==> !OccursAt(s, d, i)
  }

  /** A delimiter that starts with CR and contains no other CR cannot overlap a later CR. */
  predicate LineDelimiter(d: bytes) {
    |d| > 0 && d[0] == CR && forall k :: 1 <= k < |d| ==> d[k] != CR
  }

  predicate OneLine(s: bytes) {
    CR !in s
  }

  /** No line of the content starts with two dashes and the boundary. */
  ghost predicate Free(content: bytes, b: bytes) {
    Absent(CRLF + content, Delimiter(b))
  }

  /** A content is free of a boundary if neither it nor any of its lines begins with two dashes and the boundary. */
  lemma FreeMeans(content: bytes, b: bytes)
    ensures Free(content, b)
            <==> && !([45, 45] + b <= content)
                 && forall i :: 0 <= i < |content| ==> !([13, 10, 45, 45] + b <= content[i..])
  {
    var s, d, line := CRLF + content, Delimiter(b), [45, 45] + b;
    assert d == [13, 10] + line && d == [13, 10, 45, 45] + b;
    assert OccursAt(s, d, 0) <==> line <= content by {
      if |line| <= |content| {
        assert s[0..|d|] == [13, 10] + content[..|line|];
        assert s[0..|d|] == d ==> s[0..|d|][2..] == line;
      }
    }
    assert !OccursAt(s, d, 1) by {
      assert |d| + 1 <= |s| ==> s[1..1 + |d|][0] == 10;
    }
    forall i: nat | i < |content| ensures OccursAt(s, d, i + 2) <==> d <= content[i..] {
      if i + |d| <= |content| {
        assert s[i + 2..i + 2 + |d|] == content[i..][..|d|];
      }
    }
    if forall i :: 0 <= i < |content| ==> !(d <= content[i..]) {
      forall i: nat | 2 <= i < |s| ensures !OccursAt(s, d, i) {
        assert !(d <= content[i - 2..]) && OccursAt(s, d, (i - 2) + 2) == OccursAt(s, d, i);
      }
    }
    if Absent(s, d) {
      forall i | 0 <= i < |content| ensures !(d <= content[i..]) {
        assert !OccursAt(s, d, i + 2);
      }
      assert !OccursAt(s, d, 0);
    }
  }

  lemma DelimiterIsLine(b: bytes)
    requires IsBoundary(b)
    ensures LineDelimiter(Delimiter(b)) && LineDelimiter(CRLF)
  {
    var d := Delimiter(b);
    forall k | 1 <= k < |d| ensures d[k] != CR {
      if k >= 4 {
        assert d[k] == b[k - 4];
      }
    }
  }

  lemma OccursTail(s: bytes, d: bytes, i: nat)
    requires s != []
    ensures OccursAt(s[1..], d, i) == OccursAt(s, d, i + 1)
  {
    if i + 1 + |d| <= |s| {
      assert s[1..][i..i + |d|] == s[i + 1..i + 1 + |d|];
    }
  }

  lemma AbsentTail(s: bytes, d: bytes)
    requires s != [] && Absent(s, d)
    ensures Absent(s[1..], d)
  {
    forall i: nat | i < |s[1..]| ensures !OccursAt(s[1..], d, i) {
      OccursTail(s, d, i);
    }
  }

  /** An occurrence in a concatenation lies in one half, unless it runs across the seam. */
  lemma OccursJoin(s: bytes, t: bytes, d: bytes, i: nat)
    requires LineDelimiter(d) && (t != [] ==> t[0] == CR)
    ensures OccursAt(s + t, d, i) ==> OccursAt(s, d, i) || (i >= |s| && OccursAt(t, d, i - |s|))
  {
    if i + |d| <= |s| {
      assert (s + t)[i..i + |d|] == s[i..i + |d|];
    } else if i + |d| <= |s + t| {
      if i >= |s| {
        assert (s + t)[i..i + |d|] == t[i - |s|..i - |s| + |d|];
      } else {
        assert (s + t)[i..i + |d|][|s| - i] == t[0] == CR;
      }
    }
  }

  /** Two delimiter-free stretches stay delimiter-free when the second one starts a new line. */
  lemma AbsentJoin(s: bytes, t: bytes, d: bytes)
    requires LineDelimiter(d) && Absent(s, d) && Absent(t, d)
    requires t != [] ==> t[0] == CR
    ensures Absent(s + t, d)
  {
    forall i: nat | i < |s + t| ensures !OccursAt(s + t, d, i) {
      OccursJoin(s, t, d, i);
    }
  }

  /** A line of its own holds a delimiter only if it begins with one. */
  lemma AbsentLine(text: bytes, d: bytes)
    requires LineDelimiter(d) && OneLine(text)
    requires !(d <= CRLF + text)
    ensures Absent(CRLF + text, d)
  {
    var s := CRLF + text;
    forall i: nat | i < |s| ensures !OccursAt(s, d, i) {
      if i > 0 {
        assert s[i] != CR;
        assert i + |d| <= |s| ==> s[i..i + |d|][0] == s[i];
      } else {
        assert |d| <= |s| ==> s[..|d|] == s[0..0 + |d|];
      }
    }
  }

  lemma NotAtStart(p: bytes, d: bytes, rest: bytes)
    requires LineDelimiter(d) && Absent(p, d) && p != []
    ensures (p + d + rest)[..|d|] != d
  {
    var s := p + d + rest;
    assert s == p + (d + rest) && s[..|d|] == s[0..0 + |d|];
    OccursJoin(p, d + rest, d, 0);
    assert !OccursAt(p, d, 0);
  }

  lemma CutStep(s: bytes, d: bytes)
    requires d != [] && |s| > |d| && s[..|d|] != d
    ensures Cut(s, d) == match Cut(s[1..], d)
                         case None => None
                         case Some((a, b)) => Some(([s[0]] + a, b))
  {
  }

  lemma CutHere(d: bytes, rest: bytes)
    requires d != []
    ensures Cut(d + rest, d) == Some(([], rest))
  {
    assert (d + rest)[..|d|] == d && (d + rest)[|d|..] == rest;
  }

  lemma TailOf(p: bytes, d: bytes, rest: bytes)
    requires p != []
    ensures (p + d + rest)[1..] == p[1..] + d + rest && [(p + d + rest)[0]] + p[1..] == p
  {
  }

  lemma {:induction false} CutAt(p: bytes, d: bytes, rest: bytes)
    requires LineDelimiter(d) && Absent(p, d)
    ensures Cut(p + d + rest, d) == Some((p, rest))
  {
    hide Cut;
    if p == [] {
      assert p + d + rest == d + rest;
      CutHere(d, rest);
    } else {
      NotAtStart(p, d, rest);
      CutStep(p + d + rest, d);
      TailOf(p, d, rest);
      AbsentTail(p, d);
      CutAt(p[1..], d, rest);
    }
  }

  lemma {:induction false} CutNone(p: bytes, d: bytes)
    requires d != [] && Absent(p, d)
    ensures Cut(p, d) == None
  {
    if |d| <= |p| {
      assert p[..|d|] == p[0..0 + |d|];
      assert !OccursAt(p, d, 0);
      AbsentTail(p, d);
      CutNone(p[1..], d);
    }
  }

  function Join(ps: seq<bytes>, d: bytes): bytes
    requires ps != []
  {
    if |ps| == 1 then ps[0] else ps[0] + d + Join(ps[1..], d)
  }

  /** Splitting undoes joining when no piece contains the delimiter. */
  lemma {:induction false} SplitJoin(ps: seq<bytes>, d: bytes)
    requires ps != [] && LineDelimiter(d)
    requires forall i :: 0 <= i < |ps| ==> Absent(ps[i], d)
    ensures Split(Join(ps, d), d) == ps
  {
    if |ps| == 1 {
      CutNone(ps[0], d);
    } else {
      SplitJoin(ps[1..], d);
      CutAt(ps[0], d, Join(ps[1..], d));
    }
  }
}
