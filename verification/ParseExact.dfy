/** The reader can only return contents that are free of their delimiters, so the parse-back is exact. */
module ParseExact {
  import opened Codes
  import opened Multipart
  import opened ParseBack

  /** The choice of boundaries does not collide with the section's contents. */
  ghost predicate Separated(x: Section, b: bytes) {
    match x
    case Tuple(sub, _, meta, _, payload) =>
      sub != b && Free(meta, b) && Free(payload, b) && Free(meta, sub) && Free(payload, sub)
    case Single(_, _, meta) => Free(meta, b)
  }

  /** Header values and boundaries have the form the library gives them. */
  ghost predicate WellFormed(x: Section) {
    match x
    case Tuple(sub, metaType, _, payloadType, _) => IsBoundary(sub) && OneLine(metaType) && OneLine(payloadType)
    case Single(contentType, contentId, _) => OneLine(contentType) && OneLine(contentId) && !(RELATED <= contentType)
  }

  /** `t` stands somewhere inside `s`. */
  ghost predicate Within(t: bytes, s: bytes) {
    exists i: nat :: OccursAt(s, t, i)
  }

  lemma SliceOfSlice(s: bytes, k: nat, n: nat, i: nat, m: nat)
    requires k + n <= |s| && i + m <= n
    ensures s[k..k + n][i..i + m] == s[k + i..k + i + m]
  {
    var l, r := s[k..k + n][i..i + m], s[k + i..k + i + m];
    assert |l| == |r|;
    forall j | 0 <= j < m ensures l[j] == r[j] {
      assert l[j] == s[k..k + n][i + j] == s[k + (i + j)];
    }
  }

  lemma AbsentWithin(t: bytes, s: bytes, d: bytes)
    requires d != [] && Within(t, s) && Absent(s, d)
    ensures Absent(t, d)
  {
    var k: nat :| OccursAt(s, t, k);
    forall i: nat | i < |t| ensures !OccursAt(t, d, i) {
      if i + |d| <= |t| {
        SliceOfSlice(s, k, |t|, i, |d|);
        assert !OccursAt(s, d, k + i);
      }
    }
  }

  lemma WithinMiddle(a: bytes, t: bytes, c: bytes)
    ensures Within(t, a + t + c)
  {
    assert (a + t + c)[|a|..|a| + |t|] == t;
    assert OccursAt(a + t + c, t, |a|);
  }

  lemma WithinTrans(r: bytes, t: bytes, s: bytes)
    requires Within(r, t) && Within(t, s)
    ensures Within(r, s)
  {
    var i: nat :| OccursAt(t, r, i);
    var k: nat :| OccursAt(s, t, k);
    SliceOfSlice(s, k, |t|, i, |r|);
    assert OccursAt(s, r, k + i);
  }

  lemma CutWithin(a: bytes, d: bytes, b: bytes)
    ensures Within(a, a + d + b) && Within(b, a + d + b)
  {
    WithinMiddle([], a, d + b);
    WithinMiddle(a + d, b, []);
    assert [] + a + (d + b) == a + d + b && (a + d) + b + [] == a + d + b;
  }

  lemma {:induction false} CutFirst(s: bytes, d: bytes)
    requires d != []
    ensures Cut(s, d).Some? ==> forall i: nat :: i < |Cut(s, d).value.0| ==> !OccursAt(s, d, i)
    ensures Cut(s, d).None? ==> Absent(s, d)
  {
    if |s| >= |d| && s[..|d|] != d {
      CutFirst(s[1..], d);
      forall i: nat | i < |s| ensures OccursAt(s, d, i) ==> i > 0 && OccursAt(s[1..], d, i - 1) {
        if i > 0 {
          OccursTail(s, d, i - 1);
        } else {
          assert s[0..0 + |d|] == s[..|d|];
        }
      }
    }
  }

  lemma {:induction false} SplitPieces(s: bytes, d: bytes, k: nat)
    requires d != [] && k < |Split(s, d)|
    ensures Absent(Split(s, d)[k], d) && Within(Split(s, d)[k], s)
    decreases |s|
  {
    CutFirst(s, d);
    match Cut(s, d)
    case None => WithinMiddle([], s, []); assert [] + s + [] == s;
    case Some((a, b)) =>
      CutWithin(a, d, b);
      if k == 0 {
        forall i: nat | i < |a| ensures !OccursAt(a, d, i) {
          if i + |d| <= |a| {
            assert a[i..i + |d|] == s[i..i + |d|];
            assert !OccursAt(s, d, i);
          }
        }
      } else {
        SplitPieces(b, d, k - 1);
        WithinTrans(Split(b, d)[k - 1], b, s);
      }
  }

  /** Content starts right behind an empty line. */
  lemma {:induction false} ContentBehindBlank(s: bytes)
    requires ReadEntity(s).Some?
    ensures Within(CRLF + ReadEntity(s).value.content, s)
    decreases |s|
  {
    var (line, rest) := Cut(s, CRLF).value;
    if line == [] {
      WithinMiddle([], CRLF + rest, []);
      assert [] + (CRLF + rest) + [] == s;
    } else {
      ContentBehindBlank(rest);
      WithinMiddle(line + CRLF, rest, []);
      assert (line + CRLF) + rest + [] == s;
      WithinTrans(CRLF + ReadEntity(rest).value.content, rest, s);
    }
  }

  lemma {:induction false} PaddingWithin(s: bytes)
    ensures Within(SkipPadding(s), s)
  {
    if s != [] && (s[0] == 32 || s[0] == 9) {
      PaddingWithin(s[1..]);
      WithinMiddle([s[0]], s[1..], []);
      assert [s[0]] + s[1..] + [] == s;
      WithinTrans(SkipPadding(s), s[1..], s);
    } else {
      WithinMiddle([], s, []);
      assert [] + s + [] == s;
    }
  }

  lemma {:induction false} PartContent(pieces: seq<bytes>, k: nat)
    requires ReadParts(pieces).Some? && k < |ReadParts(pieces).value|
    ensures k < |pieces| && Within(CRLF + ReadParts(pieces).value[k].content, pieces[k])
  {
    if k == 0 {
      var p := SkipPadding(pieces[0]);
      ContentBehindBlank(p[2..]);
      PaddingWithin(pieces[0]);
      WithinMiddle(CRLF, p[2..], []);
      assert CRLF + p[2..] + [] == p;
      WithinTrans(CRLF + ReadEntity(p[2..]).value.content, p[2..], p);
      WithinTrans(CRLF + ReadEntity(p[2..]).value.content, p, pieces[0]);
    } else {
      PartContent(pieces[1..], k - 1);
    }
  }

  /** Contents read under a boundary hold no line starting with it; the body they came from does. */
  lemma MultipartFree(b: bytes, body: bytes, k: nat)
    requires ReadMultipart(b, body).Some? && k < |ReadMultipart(b, body).value|
    ensures Free(ReadMultipart(b, body).value[k].content, b)
    ensures Within(CRLF + ReadMultipart(b, body).value[k].content, CRLF + body)
    ensures !Free(body, b)
  {
    var s, d := CRLF + body, Delimiter(b);
    var pieces := Split(s, d);
    var content := CRLF + ReadMultipart(b, body).value[k].content;
    PartContent(pieces[1..], k);
    SplitPieces(s, d, k + 1);
    AbsentWithin(content, pieces[k + 1], d);
    WithinTrans(content, pieces[k + 1], s);
    var (a, rest) := Cut(s, d).value;
    assert OccursAt(s, d, |a|);
  }

  lemma SectionSeparated(e: Entity, b: bytes)
    requires ReadSection(e).Some? && Free(e.content, b)
    ensures Separated(ReadSection(e).value, b)
  {
    match ReadSection(e).value
    case Single(_, _, _) =>
    case Tuple(sub, _, _, _, _) =>
      forall k: nat | k < 2
        ensures Free(ReadMultipart(sub, e.content).value[k].content, b)
        ensures Free(ReadMultipart(sub, e.content).value[k].content, sub)
        ensures sub != b
      {
        MultipartFree(sub, e.content, k);
        AbsentWithin(CRLF + ReadMultipart(sub, e.content).value[k].content, CRLF + e.content, Delimiter(b));
      }
  }

  lemma {:induction false} SectionAt(es: seq<Entity>, k: nat)
    requires ReadSections(es).Some? && k < |ReadSections(es).value|
    ensures k < |es| && ReadSection(es[k]) == Some(ReadSections(es).value[k])
  {
    hide ReadSection;
    if k > 0 {
      SectionAt(es[1..], k - 1);
    }
  }

  /** No body at all can be read into a section that collides with its own boundaries. */
  lemma ReadIsSeparated(b: bytes, body: bytes, k: nat)
    requires Read(b, body).Some? && k < |Read(b, body).value|
    ensures Separated(Read(b, body).value[k], b)
  {
    var es := ReadMultipart(b, body).value;
    SectionAt(es, k);
    MultipartFree(b, body, k);
    SectionSeparated(es[k], b);
  }

  /** The finished body reads back to its sections exactly when no boundary collides with a content. */
  lemma ReadsBackExactly(b: bytes, xs: seq<Section>)
    requires IsBoundary(b) && xs != []
    requires forall i :: 0 <= i < |xs| ==> WellFormed(xs[i])
    ensures Read(b, Body(b, xs) + Closing(b)) == Some(xs) <==> forall i :: 0 <= i < |xs| ==> Separated(xs[i], b)
  {
    if Read(b, Body(b, xs) + Closing(b)) == Some(xs) {
      forall i | 0 <= i < |xs| ensures Separated(xs[i], b) {
        ReadIsSeparated(b, Body(b, xs) + Closing(b), i);
      }
    }
    if forall i :: 0 <= i < |xs| ==> Separated(xs[i], b) {
      forall i | 0 <= i < |xs| ensures Readable(xs[i], b) {
      }
      BodyReadsBack(b, xs);
    }
  }
}
