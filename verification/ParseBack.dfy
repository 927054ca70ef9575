/** Reading a finished body back returns exactly the sections it was built from. */
module ParseBack {
  import opened Codes
  import opened Multipart

  /** What the text of a section must satisfy to survive the trip under the outer boundary `b`. */
  ghost predicate Readable(x: Section, b: bytes) {
    match x
    case Tuple(sub, metaType, meta, payloadType, payload) =>
      && IsBoundary(sub) && sub != b
      && OneLine(metaType) && OneLine(payloadType)
      && Free(meta, b) && Free(payload, b) && Free(meta, sub) && Free(payload, sub)
    case Single(contentType, contentId, meta) =>
      && OneLine(contentType) && OneLine(contentId) && !(RELATED <= contentType)
      && Free(meta, b)
  }

  /** The nested multipart body of a tuple. */
  function Inner(x: Section): bytes
    requires x.Tuple?
  {
    SubPart(x.sub, x.metaType, x.meta) + SubPart(x.sub, x.payloadType, x.payload) + Closing(x.sub)
  }

  /** What stands between two outer delimiters. */
  function Piece(x: Section): bytes {
    match x
    case Tuple(sub, _, _, _, _) => CRLF + Part(RELATED + sub, Inner(x))
    case Single(contentType, contentId, meta) => CRLF + (TypeLine(contentType) + IdLine(contentId) + CRLF + meta)
  }

  function EntityOf(x: Section): Entity {
    match x
    case Tuple(sub, _, _, _, _) => Entity([CONTENT_TYPE + RELATED + sub], Inner(x))
    case Single(contentType, contentId, meta) => Entity([CONTENT_TYPE + contentType, CONTENT_ID + contentId], meta)
  }

  function Pieces(xs: seq<Section>): (ps: seq<bytes>)
    ensures |ps| == |xs|
  {
    seq(|xs|, i requires 0 <= i < |xs| => Piece(xs[i]))
  }

  function Entities(xs: seq<Section>): (es: seq<Entity>)
    ensures |es| == |xs|
  {
    seq(|xs|, i requires 0 <= i < |xs| => EntityOf(xs[i]))
  }

  // ---------- regrouping of concatenations ----------

  lemma RegroupTuple(c: bytes, o: bytes, t: bytes, s: bytes, u: bytes, z: bytes, d: bytes)
    requires c + o == d + c
    ensures c + ((o + t + c) + s + u + (z + c)) == d + (c + (t + c + (s + u + z))) + c
  {
    assert c + ((o + t + c) + s + u + (z + c)) == (c + o) + (t + c + (s + u + z)) + c;
  }

  lemma RegroupSingle(c: bytes, o: bytes, t: bytes, d: bytes)
    requires c + o == d + c
    ensures c + (o + t + c) == d + (c + t) + c
  {
    assert c + (o + t + c) == (c + o) + t + c;
  }

  lemma RegroupInner(c: bytes, o: bytes, p: bytes, q: bytes, z: bytes, d: bytes, h: bytes)
    requires c + o == d + c && c + z == d + h
    ensures c + ((o + p + c) + (o + q + c) + z) == [] + d + (c + p) + d + (c + q) + d + h
  {
    assert c + ((o + p + c) + (o + q + c) + z) == (c + o) + p + (c + o) + q + (c + z);
  }

  lemma OpenLineAsDelimiter(b: bytes)
    ensures CRLF + OpenLine(b) == Delimiter(b) + CRLF
    ensures CRLF + Closing(b) == Delimiter(b) + DASHES
  {
    Assoc(CRLF, DASHES + b, CRLF);
    Assoc(CRLF, DASHES + b, DASHES);
  }

  // ---------- the body as pieces between delimiters ----------

  lemma EncodeAsPiece(b: bytes, x: Section)
    ensures CRLF + Encode(b, x) == Delimiter(b) + Piece(x) + CRLF
  {
    OpenLineAsDelimiter(b);
    match x
    case Tuple(sub, metaType, meta, payloadType, payload) =>
      RegroupTuple(CRLF, OpenLine(b), TypeLine(RELATED + sub), SubPart(sub, metaType, meta),
                   SubPart(sub, payloadType, payload), Closing(sub), Delimiter(b));
    case Single(contentType, contentId, meta) =>
      RegroupSingle(CRLF, OpenLine(b), TypeLine(contentType) + IdLine(contentId) + CRLF + meta, Delimiter(b));
  }

  lemma {:induction false} JoinSnoc(ps: seq<bytes>, p: bytes, d: bytes)
    requires ps != []
    ensures Join(ps + [p], d) == Join(ps, d) + d + p
  {
    if |ps| == 1 {
      assert (ps + [p])[1..] == [p];
    } else {
      JoinSnoc(ps[1..], p, d);
      assert (ps + [p])[1..] == ps[1..] + [p];
      assert ps[0] + d + (Join(ps[1..], d) + d + p) == ps[0] + d + Join(ps[1..], d) + d + p;
    }
  }

  lemma AppendPiece(c: bytes, body: bytes, e: bytes, j: bytes, d: bytes, p: bytes)
    requires c + body == j + c && c + e == d + p + c
    ensures c + (body + e) == (j + d + p) + c
  {
    Assoc(c, body, e);
    Assoc(j, c, e);
    assert j + (d + p + c) == (j + d + p) + c;
  }

  lemma PiecesSnoc(xs: seq<Section>)
    requires xs != []
    ensures [[]] + Pieces(xs) == ([[]] + Pieces(xs[..|xs| - 1])) + [Piece(xs[|xs| - 1])]
  {
  }

  lemma {:induction false} BodyAsJoin(b: bytes, xs: seq<Section>)
    ensures CRLF + Body(b, xs) == Join([[]] + Pieces(xs), Delimiter(b)) + CRLF
  {
    if xs == [] {
      assert [[]] + Pieces(xs) == [[]];
    } else {
      var before, x := xs[..|xs| - 1], xs[|xs| - 1];
      var ps := [[]] + Pieces(before);
      BodyAsJoin(b, before);
      PiecesSnoc(xs);
      JoinSnoc(ps, Piece(x), Delimiter(b));
      EncodeAsPiece(b, x);
      AppendPiece(CRLF, Body(b, before), Encode(b, x), Join(ps, Delimiter(b)), Delimiter(b), Piece(x));
    }
  }

  lemma ClosedAsJoin(b: bytes, xs: seq<Section>)
    ensures CRLF + (Body(b, xs) + Closing(b)) == Join([[]] + Pieces(xs) + [DASHES], Delimiter(b))
  {
    var j := Join([[]] + Pieces(xs), Delimiter(b));
    BodyAsJoin(b, xs);
    JoinSnoc([[]] + Pieces(xs), DASHES, Delimiter(b));
    OpenLineAsDelimiter(b);
    Assoc(CRLF, Body(b, xs), Closing(b));
    Assoc(j, CRLF, Closing(b));
    Assoc(j, Delimiter(b), DASHES);
  }

  // ---------- delimiters do not occur inside pieces ----------

  lemma RegroupPart(c: bytes, t: bytes, content: bytes)
    ensures c + ((t + c) + c + content) == (c + t) + (c + []) + (c + content)
  {
  }

  /** The constant texts hold no CR, and the header names do not begin with a dash. */
  lemma Names()
    ensures OneLine(CONTENT_TYPE) && OneLine(CONTENT_ID) && OneLine(RELATED)
    ensures CONTENT_TYPE != [] && CONTENT_TYPE[0] == 67 && CONTENT_ID != [] && CONTENT_ID[0] == 67
  {
    AsciiOneLine("Content-Type: ");
    AsciiOneLine("Content-ID: ");
    AsciiOneLine("multipart/related;boundary=");
  }

  lemma AsciiOneLine(s: string)
    requires forall i :: 0 <= i < |s| ==> 32 <= s[i] as int < 128
    ensures OneLine(Ascii(s))
  {
  }

  lemma BoundaryOneLine(b: bytes)
    requires IsBoundary(b)
    ensures OneLine(b)
  {
    assert forall i :: 0 <= i < |b| ==> IsBoundaryCharacter(b[i]);
  }

  /** Lines that start like a header never start like a delimiter. */
  lemma AbsentHeader(name: bytes, value: bytes, b: bytes)
    requires IsBoundary(b) && OneLine(name + value) && name != [] && name[0] != 45
    ensures Absent(CRLF + (name + value), Delimiter(b))
  {
    DelimiterIsLine(b);
    assert (CRLF + (name + value))[2] == name[0] != Delimiter(b)[2];
    AbsentLine(name + value, Delimiter(b));
  }

  lemma AbsentEmptyLine(b: bytes)
    requires IsBoundary(b)
    ensures Absent(CRLF + [], Delimiter(b))
  {
    DelimiterIsLine(b);
    AbsentLine([], Delimiter(b));
  }

  lemma AbsentPart(kind: bytes, content: bytes, b: bytes)
    requires IsBoundary(b) && OneLine(kind) && Free(content, b)
    ensures Absent(CRLF + Part(kind, content), Delimiter(b))
  {
    var d, t := Delimiter(b), CONTENT_TYPE + kind;
    Names();
    DelimiterIsLine(b);
    AbsentHeader(CONTENT_TYPE, kind, b);
    AbsentEmptyLine(b);
    AbsentJoin(CRLF + t, CRLF + [], d);
    AbsentJoin((CRLF + t) + (CRLF + []), CRLF + content, d);
    RegroupPart(CRLF, t, content);
  }

  /** A line made of dashes and another boundary is no delimiter line of `b`. */
  lemma AbsentOtherBoundary(sub: bytes, tail: bytes, b: bytes)
    requires IsBoundary(b) && IsBoundary(sub) && sub != b && OneLine(tail)
    ensures Absent(CRLF + (DASHES + sub + tail), Delimiter(b))
  {
    DelimiterIsLine(b);
    BoundaryOneLine(sub);
    assert OneLine(DASHES + sub + tail);
    assert (CRLF + (DASHES + sub + tail))[4..4 + |b|] == sub && Delimiter(b)[4..4 + |b|] == b;
    AbsentLine(DASHES + sub + tail, Delimiter(b));
  }

  lemma InnerAsJoin(x: Section)
    requires x.Tuple?
    ensures CRLF + Inner(x)
            == Join([[], CRLF + Part(x.metaType, x.meta), CRLF + Part(x.payloadType, x.payload), DASHES],
                    Delimiter(x.sub))
  {
    var d := Delimiter(x.sub);
    var p, q := CRLF + Part(x.metaType, x.meta), CRLF + Part(x.payloadType, x.payload);
    JoinSnoc([[]], p, d);
    JoinSnoc([[], p], q, d);
    JoinSnoc([[], p, q], DASHES, d);
    assert [[]] + [p] == [[], p] && [[], p] + [q] == [[], p, q] && [[], p, q] + [DASHES] == [[], p, q, DASHES];
    OpenLineAsDelimiter(x.sub);
    RegroupInner(CRLF, OpenLine(x.sub), Part(x.metaType, x.meta), Part(x.payloadType, x.payload), Closing(x.sub),
                 d, DASHES);
  }

  lemma RegroupAbsent(e: bytes, p: bytes, q: bytes, h: bytes)
    ensures [] + e + p + e + q + e + h == e + p + e + q + (e + h)
  {
  }

  lemma AbsentInner(x: Section, b: bytes)
    requires x.Tuple? && Readable(x, b) && IsBoundary(b)
    ensures Absent(CRLF + Inner(x), Delimiter(b))
  {
    var d, e := Delimiter(b), Delimiter(x.sub);
    var p, q := CRLF + Part(x.metaType, x.meta), CRLF + Part(x.payloadType, x.payload);
    DelimiterIsLine(b);
    AbsentPart(x.metaType, x.meta, b);
    AbsentPart(x.payloadType, x.payload, b);
    AbsentOtherBoundary(x.sub, [], b);
    AbsentOtherBoundary(x.sub, DASHES, b);
    OpenLineAsDelimiter(x.sub);
    assert DASHES + x.sub + [] == DASHES + x.sub;
    AbsentJoin(e, p, d);
    AbsentJoin(e + p, e, d);
    AbsentJoin(e + p + e, q, d);
    AbsentJoin(e + p + e + q, e + DASHES, d);
    RegroupInner(CRLF, OpenLine(x.sub), Part(x.metaType, x.meta), Part(x.payloadType, x.payload), Closing(x.sub),
                 e, DASHES);
    RegroupAbsent(e, p, q, DASHES);
  }

  lemma RegroupSinglePiece(c: bytes, t: bytes, i: bytes, meta: bytes)
    ensures c + ((t + c) + (i + c) + c + meta) == (c + t) + (c + i) + (c + []) + (c + meta)
  {
  }

  lemma AbsentPiece(x: Section, b: bytes)
    requires Readable(x, b) && IsBoundary(b)
    ensures Absent(Piece(x), Delimiter(b))
  {
    Names();
    match x
    case Tuple(sub, _, _, _, _) =>
      BoundaryOneLine(sub);
      AbsentInner(x, b);
      AbsentPart(RELATED + sub, Inner(x), b);
    case Single(contentType, contentId, meta) =>
      AbsentSingle(CONTENT_TYPE, contentType, CONTENT_ID, contentId, meta, b);
  }

  lemma AbsentSingle(n: bytes, v: bytes, m: bytes, w: bytes, meta: bytes, b: bytes)
    requires IsBoundary(b) && OneLine(n + v) && OneLine(m + w) && Free(meta, b)
    requires n != [] && n[0] != 45 && m != [] && m[0] != 45
    ensures Absent(CRLF + (((n + v) + CRLF) + ((m + w) + CRLF) + CRLF + meta), Delimiter(b))
  {
    var d, t, i := Delimiter(b), n + v, m + w;
    DelimiterIsLine(b);
    AbsentHeader(n, v, b);
    AbsentHeader(m, w, b);
    AbsentEmptyLine(b);
    AbsentJoin(CRLF + t, CRLF + i, d);
    AbsentJoin((CRLF + t) + (CRLF + i), CRLF + [], d);
    AbsentJoin((CRLF + t) + (CRLF + i) + (CRLF + []), CRLF + meta, d);
    RegroupSinglePiece(CRLF, t, i, meta);
  }

  // ---------- reading entities ----------

  lemma ReadLine(line: bytes, rest: bytes)
    requires OneLine(line) && line != []
    ensures ReadEntity(line + CRLF + rest)
            == match ReadEntity(rest)
               case None => None
               case Some(e) => Some(Entity([line] + e.headers, e.content))
  {
    forall i: nat | i < |line| ensures !OccursAt(line, CRLF, i) {
      assert i + 2 <= |line| ==> line[i..i + 2][0] == line[i];
    }
    CutAt(line, CRLF, rest);
  }

  lemma ReadBlank(rest: bytes)
    ensures ReadEntity(CRLF + rest) == Some(Entity([], rest))
  {
    CutAt([], CRLF, rest);
    assert [] + CRLF + rest == CRLF + rest;
  }

  lemma ReadOne(line: bytes, content: bytes)
    requires OneLine(line) && line != []
    ensures ReadEntity((line + CRLF) + CRLF + content) == Some(Entity([line], content))
  {
    ReadBlank(content);
    ReadLine(line, CRLF + content);
    assert (line + CRLF) + CRLF + content == line + CRLF + (CRLF + content);
    assert [line] + [] == [line];
  }

  lemma ReadTwo(line: bytes, second: bytes, content: bytes)
    requires OneLine(line) && line != [] && OneLine(second) && second != []
    ensures ReadEntity((line + CRLF) + (second + CRLF) + CRLF + content) == Some(Entity([line, second], content))
  {
    ReadOne(second, content);
    ReadLine(line, (second + CRLF) + CRLF + content);
    assert (line + CRLF) + (second + CRLF) + CRLF + content == line + CRLF + ((second + CRLF) + CRLF + content);
    assert [line] + [second] == [line, second];
  }

  lemma Behind(c: bytes, s: bytes)
    requires |c| == 2
    ensures (c + s)[2..] == s && c <= c + s
  {
  }

  lemma ReadPiece(x: Section, b: bytes)
    requires Readable(x, b)
    ensures CRLF <= Piece(x) && ReadEntity(Piece(x)[2..]) == Some(EntityOf(x))
  {
    Names();
    match x
    case Tuple(sub, _, _, _, _) =>
      BoundaryOneLine(sub);
      ReadOne(CONTENT_TYPE + (RELATED + sub), Inner(x));
      Behind(CRLF, Part(RELATED + sub, Inner(x)));
      Assoc(CONTENT_TYPE, RELATED, sub);
    case Single(contentType, contentId, meta) =>
      ReadTwo(CONTENT_TYPE + contentType, CONTENT_ID + contentId, meta);
      Behind(CRLF, TypeLine(contentType) + IdLine(contentId) + CRLF + meta);
  }

  // ---------- reading whole bodies ----------

  lemma StartsPart(p: bytes)
    requires CRLF <= p
    ensures !(DASHES <= p) && SkipPadding(p) == p
  {
    assert p[0] == CRLF[0];
  }

  lemma {:induction false} PartsBack(ps: seq<bytes>, es: seq<Entity>)
    requires |ps| == |es|
    requires forall i :: 0 <= i < |ps| ==> CRLF <= ps[i] && ReadEntity(ps[i][2..]) == Some(es[i])
    ensures ReadParts(ps + [DASHES]) == Some(es)
  {
    if ps != [] {
      StartsPart(ps[0]);
      PartsBack(ps[1..], es[1..]);
      var all := ps + [DASHES];
      assert all[0] == ps[0] && all[1..] == ps[1..] + [DASHES];
      assert [es[0]] + es[1..] == es;
    }
  }

  lemma Framed(ps: seq<bytes>, d: bytes)
    requires |d| > 2 && forall i :: 0 <= i < |ps| ==> Absent(ps[i], d)
    ensures forall i :: 0 <= i < |[[]] + ps + [DASHES]| ==> Absent(([[]] + ps + [DASHES])[i], d)
    ensures ([[]] + ps + [DASHES])[1..] == ps + [DASHES]
  {
    var all := [[]] + ps + [DASHES];
    assert Absent([], d) && Absent(DASHES, d);
    forall i | 0 <= i < |all| ensures Absent(all[i], d) {
      assert all[i] == if i == 0 then [] else if i <= |ps| then ps[i - 1] else DASHES;
    }
  }

  lemma MultipartBack(b: bytes, body: bytes, ps: seq<bytes>, es: seq<Entity>)
    requires IsBoundary(b) && |ps| == |es| > 0
    requires CRLF + body == Join([[]] + ps + [DASHES], Delimiter(b))
    requires forall i :: 0 <= i < |ps| ==>
               && Absent(ps[i], Delimiter(b))
               && CRLF <= ps[i] && ReadEntity(ps[i][2..]) == Some(es[i])
    ensures ReadMultipart(b, body) == Some(es)
  {
    DelimiterIsLine(b);
    Framed(ps, Delimiter(b));
    SplitJoin([[]] + ps + [DASHES], Delimiter(b));
    PartsBack(ps, es);
  }

  lemma InnerBack(x: Section, b: bytes)
    requires x.Tuple? && Readable(x, b)
    ensures ReadMultipart(x.sub, Inner(x))
            == Some([Entity([CONTENT_TYPE + x.metaType], x.meta), Entity([CONTENT_TYPE + x.payloadType], x.payload)])
  {
    var p, q := CRLF + Part(x.metaType, x.meta), CRLF + Part(x.payloadType, x.payload);
    Names();
    InnerAsJoin(x);
    assert [[]] + [p, q] + [DASHES] == [[], p, q, DASHES];
    AbsentPart(x.metaType, x.meta, x.sub);
    AbsentPart(x.payloadType, x.payload, x.sub);
    ReadOne(CONTENT_TYPE + x.metaType, x.meta);
    ReadOne(CONTENT_TYPE + x.payloadType, x.payload);
    Behind(CRLF, Part(x.metaType, x.meta));
    Behind(CRLF, Part(x.payloadType, x.payload));
    MultipartBack(x.sub, Inner(x), [p, q],
                  [Entity([CONTENT_TYPE + x.metaType], x.meta), Entity([CONTENT_TYPE + x.payloadType], x.payload)]);
  }

  lemma SectionBack(x: Section, b: bytes)
    requires Readable(x, b)
    ensures ReadSection(EntityOf(x)) == Some(x)
  {
    match x
    case Tuple(_, _, _, _, _) => InnerBack(x, b);
    case Single(_, _, _) =>
  }

  lemma {:induction false} SectionsBack(es: seq<Entity>, xs: seq<Section>)
    requires |es| == |xs|
    requires forall i :: 0 <= i < |xs| ==> ReadSection(es[i]) == Some(xs[i])
    ensures ReadSections(es) == Some(xs)
  {
    if xs != [] {
      SectionsBack(es[1..], xs[1..]);
      assert [xs[0]] + xs[1..] == xs;
    }
  }

  lemma PiecesBack(xs: seq<Section>, b: bytes)
    requires IsBoundary(b) && forall i :: 0 <= i < |xs| ==> Readable(xs[i], b)
    ensures forall i :: 0 <= i < |xs| ==>
              && Absent(Pieces(xs)[i], Delimiter(b))
              && CRLF <= Pieces(xs)[i] && ReadEntity(Pieces(xs)[i][2..]) == Some(Entities(xs)[i])
  {
    forall i | 0 <= i < |xs|
      ensures Absent(Pieces(xs)[i], Delimiter(b))
      ensures CRLF <= Pieces(xs)[i] && ReadEntity(Pieces(xs)[i][2..]) == Some(Entities(xs)[i])
    {
      AbsentPiece(xs[i], b);
      ReadPiece(xs[i], b);
    }
  }

  /** Whatever was added to a request, a conforming reader of the finished body gets it back, in order. */
  lemma BodyReadsBack(b: bytes, xs: seq<Section>)
    requires IsBoundary(b) && xs != []
    requires forall i :: 0 <= i < |xs| ==> Readable(xs[i], b)
    ensures Read(b, Body(b, xs) + Closing(b)) == Some(xs)
  {
    PiecesBack(xs, b);
    ClosedAsJoin(b, xs);
    MultipartBack(b, Body(b, xs) + Closing(b), Pieces(xs), Entities(xs));
    forall i | 0 <= i < |xs| ensures ReadSection(Entities(xs)[i]) == Some(xs[i]) {
      SectionBack(xs[i], b);
    }
    SectionsBack(Entities(xs), xs);
  }
}
