/** Realizing fontsets on a frame and looking fonts up in them
    (fontset.c: `realize_font_group`, `mfont__realize_fontset`,
    `mfont__lookup_fontset`). */
module FontsetRealize {

  import opened Plist
  import opened FontProps
  import opened FontTables
  import opened FontSelect
  import opened Fontsets

  /** A group of a realized fontset: the fontset's group until it is first
      needed, then the fonts realized from it in score order. */
  datatype RGroup = Pending(group: Group) | Realized(fonts: seq<RealizedFont>)

  /** A fontset realized on a frame for one face's spec. */
  datatype RealizedFontset = RealizedFontset(
    fontsetName: Symbol, tick: nat, spec: MFont,
    perScript: seq<(Symbol, seq<(Symbol, RGroup)>)>,
    perCharset: seq<(Symbol, RGroup)>,
    fallback: RGroup)

  /** A frame's realized fontsets, each filed under its fontset's name. */
  type FrameFontsets = seq<(Symbol, RealizedFontset)>

  /** Every group still pending holds specs interned in `t`. */
  ghost predicate RGroupOk(t: PropTables, g: RGroup)
  {
    g.Pending? ==> forall i :: 0 <= i < |g.group| ==> FontOk(t, g.group[i].1)
  }

  ghost predicate RealizedOk(t: PropTables, rs: RealizedFontset)
  {
    && (forall i, j :: 0 <= i < |rs.perScript| && 0 <= j < |rs.perScript[i].1| ==> RGroupOk(t, rs.perScript[i].1[j].1))
    && (forall i :: 0 <= i < |rs.perCharset| ==> RGroupOk(t, rs.perCharset[i].1))
    && RGroupOk(t, rs.fallback)
  }

  lemma RGroupOkExtends(t: PropTables, u: PropTables, g: RGroup)
    requires RGroupOk(t, g) && Extends(t, u)
    ensures RGroupOk(u, g)
  {
    if g.Pending? {
      forall i | 0 <= i < |g.group| ensures FontOk(u, g.group[i].1) {
        ExtendsKeepsFont(t, u, g.group[i].1);
      }
    }
  }

  lemma RealizedOkExtends(t: PropTables, u: PropTables, rs: RealizedFontset)
    requires RealizedOk(t, rs) && Extends(t, u)
    ensures RealizedOk(u, rs)
  {
    forall i, j | 0 <= i < |rs.perScript| && 0 <= j < |rs.perScript[i].1|
      ensures RGroupOk(u, rs.perScript[i].1[j].1)
    {
      RGroupOkExtends(t, u, rs.perScript[i].1[j].1);
    }
    forall i | 0 <= i < |rs.perCharset| ensures RGroupOk(u, rs.perCharset[i].1) {
      RGroupOkExtends(t, u, rs.perCharset[i].1);
    }
    RGroupOkExtends(t, u, rs.fallback);
  }

  // ---------------------------------------------------------------------
  // mfont__realize_fontset

  /** Each group of a per-language list, still pending. */
  function PendingLanguages(pl: PerLanguage): (r: seq<(Symbol, RGroup)>)
    ensures |r| == |pl|
    ensures forall j :: 0 <= j < |pl| ==> r[j] == (pl[j].0, Pending(pl[j].1))
  {
    if |pl| == 0 then [] else [(pl[0].0, Pending(pl[0].1))] + PendingLanguages(pl[1..])
  }

  function PendingScripts(ps: seq<(Symbol, PerLanguage)>): (r: seq<(Symbol, seq<(Symbol, RGroup)>)>)
    ensures |r| == |ps|
    ensures forall i :: 0 <= i < |ps| ==> r[i] == (ps[i].0, PendingLanguages(ps[i].1))
  {
    if |ps| == 0 then [] else [(ps[0].0, PendingLanguages(ps[0].1))] + PendingScripts(ps[1..])
  }

  function PendingCharsets(pc: seq<(Symbol, Group)>): (r: seq<(Symbol, RGroup)>)
    ensures |r| == |pc|
    ensures forall i :: 0 <= i < |pc| ==> r[i] == (pc[i].0, Pending(pc[i].1))
  {
    if |pc| == 0 then [] else [(pc[0].0, Pending(pc[0].1))] + PendingCharsets(pc[1..])
  }

  /** The size a face with no positive size is realized at. */
  const DefaultSize: int := 120

  /** The realized fontset of a frame for this fontset and spec, if any. */
  function FirstRealized(frameSets: FrameFontsets, name: Symbol, spec: MFont): (r: Option<nat>)
    ensures r.Some? ==> r.value < |frameSets| && frameSets[r.value].0 == name && frameSets[r.value].1.spec == spec
    ensures r.Some? ==> forall i :: 0 <= i < r.value ==> !(frameSets[i].0 == name && frameSets[i].1.spec == spec)
    ensures r.None? ==> forall i :: 0 <= i < |frameSets| ==> !(frameSets[i].0 == name && frameSets[i].1.spec == spec)
  {
    if |frameSets| == 0 then None
    else if frameSets[0].0 == name && frameSets[0].1.spec == spec then Some(0)
    else var r := FirstRealized(frameSets[1..], name, spec); if r.Some? then Some(r.value + 1) else None
  }

  /** The spec a face asks for, with a non-positive size replaced by the
      default size. */
  function FaceRequest(t: PropTables, face: Face): (r: (PropTables, MFont))
    requires TablesOk(t) && |face.props| == Adstyle + 1 && |t[Registry]| >= 2
    ensures TablesOk(r.0) && Extends(t, r.0) && FontOk(r.0, r.1)
    ensures forall k :: 0 <= k <= Adstyle ==> Name(r.0, r.1, k) == face.props[k]
    ensures r.1[Registry] == 1 && Name(r.0, r.1, Registry) == t[Registry][1]
    ensures r.1[Size] == (if face.size <= 0 then DefaultSize else face.size)
    ensures r.1[ResY] == 0 && r.1[FontType] == 0
  {
    var (t1, request) := SetSpecFromFace(t, face);
    (t1, if request[Size] <= 0 then request[Size := DefaultSize] else request)
  }

  /** `mfont__realize_fontset`: load the fontset if needed, derive the
      request from the face, and reuse the frame's realized fontset for
      the same fontset name and request.  Otherwise a new realized fontset
      mirrors the fontset's groups, every one pending, and is filed on the
      frame. */
  function RealizeFontset(t: PropTables, frameSets: FrameFontsets, fs: Fontset, face: Face)
    : (r: (PropTables, Fontset, FrameFontsets, RealizedFontset))
    requires TablesOk(t) && FontsetReady(t, fs) && |face.props| == Adstyle + 1 && |t[Registry]| >= 2
    ensures TablesOk(r.0) && Extends(t, r.0) && FontsetReady(r.0, r.1)
    ensures r.1 == EnsureLoaded(t, fs).1 && r.1.contents.Some? && r.1.mdb.None?
    ensures (r.0, r.3.spec) == FaceRequest(EnsureLoaded(t, fs).0, face)
    ensures var request := r.3.spec;
            var hit := FirstRealized(frameSets, fs.name, request);
            && FontOk(r.0, request)
            && (hit.Some? ==> r.2 == frameSets && r.3 == frameSets[hit.value].1)
            && (hit.None? ==>
                  var c := r.1.contents.value;
                  && r.2 == frameSets + [(fs.name, r.3)]
                  && r.3 == RealizedFontset(fs.name, fs.tick, request, PendingScripts(c.perScript),
                                            PendingCharsets(c.perCharset), Pending(c.fallback))
                  && RealizedOk(r.0, r.3))
  {
    var (t1, loaded) := EnsureLoaded(t, fs);
    var (t2, request) := FaceRequest(t1, face);
    ExtendsTrans(t, t1, t2);
    assert FontsetReady(t2, loaded) by { SpecsOkExtends(t1, t2, SpecsOf(loaded)); }
    match FirstRealized(frameSets, fs.name, request)
    case Some(i) => (t2, loaded, frameSets, frameSets[i].1)
    case None =>
      var c := loaded.contents.value;
      var rs := RealizedFontset(fs.name, fs.tick, request, PendingScripts(c.perScript),
                                PendingCharsets(c.perCharset), Pending(c.fallback));
      PendingOk(t2, c, SpecsOf(loaded), rs);
      (t2, loaded, frameSets + [(fs.name, rs)], rs)
  }

  lemma PendingOk(t: PropTables, c: Contents, specs: seq<MFont>, rs: RealizedFontset)
    requires ContentsOk(c, specs) && SpecsOk(t, specs)
    requires rs.perScript == PendingScripts(c.perScript) && rs.perCharset == PendingCharsets(c.perCharset)
    requires rs.fallback == Pending(c.fallback)
    ensures RealizedOk(t, rs)
  {
    forall g: Group | GroupOk(g, specs) ensures RGroupOk(t, Pending(g)) {
      forall i | 0 <= i < |g| ensures FontOk(t, g[i].1) {
        var k :| 0 <= k < |specs| && specs[k] == g[i].1;
      }
    }
    forall i, j | 0 <= i < |rs.perScript| && 0 <= j < |rs.perScript[i].1|
      ensures RGroupOk(t, rs.perScript[i].1[j].1)
    {
      assert rs.perScript[i].1[j].1 == Pending(c.perScript[i].1[j].1);
    }
  }

  /** Realizing the same fontset for the same face again finds the
      realized fontset already on the frame: nothing is added and the same
      realized fontset comes back. */
  lemma RealizeFontsetCached(t: PropTables, frameSets: FrameFontsets, fs: Fontset, face: Face)
    requires TablesOk(t) && FontsetReady(t, fs) && |face.props| == Adstyle + 1 && |t[Registry]| >= 2
    ensures var r := RealizeFontset(t, frameSets, fs, face);
            |r.0[Registry]| >= 2 &&
            var r2 := RealizeFontset(r.0, r.2, r.1, face);
            r2.2 == r.2 && r2.3 == r.3
  {
    var r := RealizeFontset(t, frameSets, fs, face);
    FaceRequestStable(EnsureLoaded(t, fs).0, r.0, face);
    if FirstRealized(frameSets, fs.name, r.3.spec).None? {
      FirstRealizedAppend(frameSets, fs.name, r.3);
    }
  }

  /** A realized fontset filed on a frame that had none for its name and
      request is the one found there next. */
  lemma FirstRealizedAppend(frameSets: FrameFontsets, name: Symbol, rs: RealizedFontset)
    requires FirstRealized(frameSets, name, rs.spec).None?
    ensures FirstRealized(frameSets + [(name, rs)], name, rs.spec) == Some(|frameSets|)
  {
    var grown := frameSets + [(name, rs)];
    assert forall i :: 0 <= i < |frameSets| ==> grown[i] == frameSets[i];
    assert grown[|frameSets|] == (name, rs);
  }

  /** Once the face's symbols are interned, deriving its request again
      gives the same spec. */
  lemma FaceRequestStable(t: PropTables, t1: PropTables, face: Face)
    requires TablesOk(t) && |face.props| == Adstyle + 1 && |t[Registry]| >= 2
    requires Extends(FaceRequest(t, face).0, t1) && TablesOk(t1)
    ensures |t1[Registry]| >= 2 && FaceRequest(t1, face).1 == FaceRequest(t, face).1
  {
    var (t0, f0) := FaceRequest(t, face);
    assert t1[Registry][..|t0[Registry]|] == t0[Registry];
    var (t2, f2) := FaceRequest(t1, face);
    SpecsAgree(t0, t1, t2, f0, f2);
  }

  /** Two specs that name the same symbols in tables extending one another,
      and agree on every other axis, are the same spec. */
  lemma SpecsAgree(t0: PropTables, t1: PropTables, t2: PropTables, f0: MFont, f2: MFont)
    requires TablesOk(t0) && TablesOk(t2) && Extends(t0, t1) && Extends(t1, t2)
    requires FontOk(t0, f0) && FontOk(t2, f2)
    requires forall k :: 0 <= k <= Adstyle ==> Name(t0, f0, k) == Name(t2, f2, k)
    requires f0[Registry] == f2[Registry]
    requires f0[Size] == f2[Size] && f0[ResY] == f2[ResY] && f0[FontType] == f2[FontType]
    ensures f2 == f0
  {
    forall k | 0 <= k < NumProps ensures f2[k] == f0[k] {
      if k <= Adstyle {
        SameNameSameId(t0, t1, t2, f0, f2, k);
      } else {
        assert k in {Registry, Size, ResY, FontType};
      }
    }
  }

  /** Two ids naming the same symbol in tables that extend one another are
      the same id. */
  lemma SameNameSameId(t0: PropTables, t1: PropTables, t2: PropTables, f0: MFont, f2: MFont, k: nat)
    requires TablesOk(t0) && TablesOk(t2) && Extends(t0, t1) && Extends(t1, t2)
    requires FontOk(t0, f0) && FontOk(t2, f2) && k < NumSymbolic
    requires Name(t0, f0, k) == Name(t2, f2, k)
    ensures f2[k] == f0[k]
  {
    assert t2[k][..|t0[k]|] == t0[k] by {
      assert t1[k][..|t0[k]|] == t0[k];
      assert t2[k][..|t1[k]|] == t1[k];
    }
    assert t2[k][f0[k]] == t0[k][f0[k]];
    assert TableOk(t2[k]);
  }

  // ---------------------------------------------------------------------
  // realize_font_group

  /** Fonts listed from the lowest score up, equal scores in the order they
      were added. */
  ghost predicate SortedByScore(fonts: seq<RealizedFont>)
  {
    forall i, j :: 0 <= i < j < |fonts| ==> fonts[i].score <= fonts[j].score
  }

  /** Where a font goes in a realized group: before the first font with a
      strictly higher score, or at the end. */
  function InsertPos(fonts: seq<RealizedFont>, x: RealizedFont): (k: nat)
    ensures k <= |fonts|
    ensures forall i :: 0 <= i < k ==> fonts[i].score <= x.score
    ensures k < |fonts| ==> fonts[k].score > x.score
  {
    if |fonts| == 0 || fonts[0].score > x.score then 0 else 1 + InsertPos(fonts[1..], x)
  }

  /** A realized font enters its group at `InsertPos`: the fonts before
      that position stay in front of it and the others move one place
      back. */
  function InsertByScore(fonts: seq<RealizedFont>, x: RealizedFont): (r: seq<RealizedFont>)
    ensures |r| == |fonts| + 1
    ensures var k := InsertPos(fonts, x);
            && r[k] == x
            && (forall i :: 0 <= i < k ==> r[i] == fonts[i])
            && (forall i :: k < i < |r| ==> r[i] == fonts[i - 1])
  {
    var k := InsertPos(fonts, x);
    fonts[..k] + [x] + fonts[k..]
  }

  /** Inserting keeps the group sorted. */
  lemma InsertKeepsOrder(fonts: seq<RealizedFont>, x: RealizedFont)
    requires SortedByScore(fonts)
    ensures SortedByScore(InsertByScore(fonts, x))
  {
    var k := InsertPos(fonts, x);
    var r := InsertByScore(fonts, x);
    forall i, j | 0 <= i < j < |r| ensures r[i].score <= r[j].score {
      if j < k {
        assert r[i] == fonts[i] && r[j] == fonts[j];
      } else if j == k {
        assert r[i] == fonts[i];
      } else if i < k {
        assert r[i] == fonts[i] && r[j] == fonts[j - 1];
      } else if i == k {
        assert r[j] == fonts[j - 1] && fonts[k].score > x.score;
      } else {
        assert r[i] == fonts[i - 1] && r[j] == fonts[j - 1];
      }
    }
  }

  /** Inserting loses nothing and adds only the new font. */
  lemma InsertIsPermutation(fonts: seq<RealizedFont>, x: RealizedFont)
    ensures multiset(InsertByScore(fonts, x)) == multiset(fonts) + multiset{x}
  {
    var k := InsertPos(fonts, x);
    var r := InsertByScore(fonts, x);
    assert r == fonts[..k] + [x] + fonts[k..];
    assert fonts == fonts[..k] + fonts[k..];
  }

  /** `b` is `a` with entries appended: the frame's font list only grows. */
  ghost predicate Grows<X>(a: seq<X>, b: seq<X>)
  {
    |a| <= |b| && b[..|a|] == a
  }

  /** A font is filed on the frame. */
  ghost predicate OnFrame(frame: FrameFonts, x: RealizedFont)
  {
    exists i :: 0 <= i < |frame| && frame[i].1 == x
  }

  /** `mfont__select` returns a font filed on the frame it returns, and
      the frame only grows. */
  lemma SelectOnFrame(frame: FrameFonts, tables: PropTables, spec: MFont, request: MFont,
                      limitedSize: int, layouter: Symbol, drivers: DriverSelect)
    requires FontOk(tables, spec)
    ensures var r := Select(frame, tables, spec, request, limitedSize, layouter, drivers);
            Grows(frame, r.0) && (r.1.Some? ==> OnFrame(r.0, r.1.value))
  {
    var r := Select(frame, tables, spec, request, limitedSize, layouter, drivers);
    if r.1.Some? {
      if r.0 == frame {
        var i := FirstCached(frame, NilAsT(Name(tables, spec, Registry)), spec, request).value;
        assert frame[i].1 == r.1.value;
      } else {
        assert r.0[|frame|].1 == r.1.value;
      }
    }
  }

  lemma GrowsOnFrame(a: FrameFonts, b: FrameFonts, x: RealizedFont)
    requires Grows(a, b) && OnFrame(a, x)
    ensures OnFrame(b, x)
  {
    var i :| 0 <= i < |a| && a[i].1 == x;
    assert b[i] == a[i];
  }

  lemma GrowsTrans<X>(a: seq<X>, b: seq<X>, c: seq<X>)
    requires Grows(a, b) && Grows(b, c)
    ensures Grows(a, c)
  {
    assert c[..|b|][..|a|] == c[..|a|];
  }

  lemma AllOnFrame(a: FrameFonts, b: FrameFonts, fonts: seq<RealizedFont>)
    requires Grows(a, b) && forall i :: 0 <= i < |fonts| ==> OnFrame(a, fonts[i])
    ensures forall i :: 0 <= i < |fonts| ==> OnFrame(b, fonts[i])
  {
    forall i | 0 <= i < |fonts| ensures OnFrame(b, fonts[i]) { GrowsOnFrame(a, b, fonts[i]); }
  }

  /** The fonts of `fonts` with score `v`, in their order. */
  function WithScore(fonts: seq<RealizedFont>, v: int): seq<RealizedFont>
  {
    if |fonts| == 0 then []
    else WithScore(fonts[..|fonts| - 1], v) + (if fonts[|fonts| - 1].score == v then [fonts[|fonts| - 1]] else [])
  }

  lemma {:induction false} WithScoreConcat(a: seq<RealizedFont>, b: seq<RealizedFont>, v: int)
    ensures WithScore(a + b, v) == WithScore(a, v) + WithScore(b, v)
    decreases |b|
  {
    if |b| == 0 {
      assert a + b == a;
    } else {
      var b0 := b[..|b| - 1];
      assert (a + b)[..|a + b| - 1] == a + b0;
      WithScoreConcat(a, b0, v);
    }
  }

  lemma {:induction false} WithScoreNone(fonts: seq<RealizedFont>, v: int)
    requires forall i :: 0 <= i < |fonts| ==> fonts[i].score > v
    ensures WithScore(fonts, v) == []
    decreases |fonts|
  {
    if |fonts| > 0 {
      WithScoreNone(fonts[..|fonts| - 1], v);
    }
  }

  lemma WithScoreSingle(x: RealizedFont, v: int)
    ensures WithScore([x], v) == (if x.score == v then [x] else [])
  {
    assert [x][..0] == [];
  }

  /** In a sorted group every font from the insertion position on scores
      higher than the font inserted. */
  lemma AfterInsertPos(fonts: seq<RealizedFont>, x: RealizedFont)
    requires SortedByScore(fonts)
    ensures forall i :: InsertPos(fonts, x) <= i < |fonts| ==> fonts[i].score > x.score
  {
    var k := InsertPos(fonts, x);
    forall i | k <= i < |fonts| ensures fonts[i].score > x.score {
      assert fonts[k].score <= fonts[i].score;
    }
  }

  /** Inserting into a sorted group puts the new font after every font of
      its score and changes the order of no other score. */
  lemma InsertIsStable(fonts: seq<RealizedFont>, x: RealizedFont, v: int)
    requires SortedByScore(fonts)
    ensures WithScore(InsertByScore(fonts, x), v) == WithScore(fonts, v) + WithScore([x], v)
  {
    var k := InsertPos(fonts, x);
    var a, b := fonts[..k], fonts[k..];
    assert InsertByScore(fonts, x) == a + [x] + b;
    assert fonts == a + b;
    if x.score == v {
      AfterInsertPos(fonts, x);
      assert forall i :: 0 <= i < |b| ==> b[i] == fonts[k + i];
      InsertBeforeHigher(a, b, x);
    } else {
      InsertOtherScore(a, b, x, v);
    }
  }

  lemma InsertBeforeHigher(a: seq<RealizedFont>, b: seq<RealizedFont>, x: RealizedFont)
    requires forall i :: 0 <= i < |b| ==> b[i].score > x.score
    ensures WithScore(a + [x] + b, x.score) == WithScore(a + b, x.score) + WithScore([x], x.score)
  {
    var v := x.score;
    WithScoreConcat(a + [x], b, v);
    WithScoreConcat(a, [x], v);
    WithScoreConcat(a, b, v);
    WithScoreNone(b, v);
    assert WithScore(a + b, v) + [] == WithScore(a + b, v);
    assert WithScore(a, v) + WithScore([x], v) + [] == WithScore(a, v) + WithScore([x], v);
  }

  lemma InsertOtherScore(a: seq<RealizedFont>, b: seq<RealizedFont>, x: RealizedFont, v: int)
    requires x.score != v
    ensures WithScore(a + [x] + b, v) == WithScore(a + b, v) + WithScore([x], v)
  {
    WithScoreConcat(a + [x], b, v);
    WithScoreConcat(a, [x], v);
    WithScoreConcat(a, b, v);
    WithScoreSingle(x, v);
    assert WithScore(a, v) + [] == WithScore(a, v);
    assert WithScore(a + b, v) + [] == WithScore(a + b, v);
  }

  /** One step of `realize_font_group`: if a group is `sel` sorted stably
      by score, inserting a font gives `sel` with that font appended,
      sorted stably by score. */
  lemma InsertStep(fonts: seq<RealizedFont>, sel: seq<RealizedFont>, x: RealizedFont)
    requires SortedByScore(fonts) && multiset(fonts) == multiset(sel)
    requires forall v :: WithScore(fonts, v) == WithScore(sel, v)
    ensures var r := InsertByScore(fonts, x);
            && SortedByScore(r) && multiset(r) == multiset(sel + [x])
            && forall v :: WithScore(r, v) == WithScore(sel + [x], v)
  {
    InsertKeepsOrder(fonts, x);
    InsertIsPermutation(fonts, x);
    forall v ensures WithScore(InsertByScore(fonts, x), v) == WithScore(sel + [x], v) {
      InsertIsStable(fonts, x, v);
      WithScoreConcat(sel, [x], v);
    }
  }

  /** One entry of a group: the request resized for the entry's spec, and
      the font selected for it on the frame (the generic layouter `t` asks
      for no layouter).  The frame only grows, and a font found is filed on
      it. */
  function RealizeEntry(st: FontState, db: Option<seq<Elem>>, frame: FrameFonts, request: MFont,
                        entry: (Symbol, MFont), size: int, drivers: DriverSelect)
    : (r: (FontState, FrameFonts, Option<RealizedFont>))
    requires StateOk(st) && FontOk(st.tables, entry.1)
    ensures StateOk(r.0) && Extends(st.tables, r.0.tables) && Grows(frame, r.1)
    ensures r.2.Some? ==> OnFrame(r.1, r.2.value)
  {
    var (st2, thisRequest) := Resize(st, db, entry.1, request);
    ExtendsKeepsFont(st.tables, st2.tables, entry.1);
    var layouter := if entry.0 == T then Nil else entry.0;
    var (frame2, found) := Select(frame, st2.tables, entry.1, thisRequest, size, layouter, drivers);
    SelectOnFrame(frame, st2.tables, entry.1, thisRequest, size, layouter, drivers);
    (st2, frame2, found)
  }

  /** The fonts `mfont__select` finds for the entries of a group, in the
      order of the entries, with the state and frame after the last
      selection.  The frame only grows and every font found is filed on
      it. */
  function SelectedFonts(st: FontState, db: Option<seq<Elem>>, frame: FrameFonts, request: MFont,
                         group: Group, size: int, drivers: DriverSelect)
    : (r: (FontState, FrameFonts, seq<RealizedFont>))
    requires StateOk(st) && forall i :: 0 <= i < |group| ==> FontOk(st.tables, group[i].1)
    ensures StateOk(r.0) && Extends(st.tables, r.0.tables) && Grows(frame, r.1)
    ensures |r.2| <= |group| && forall i :: 0 <= i < |r.2| ==> OnFrame(r.1, r.2[i])
    decreases |group|
  {
    if |group| == 0 then (st, frame, [])
    else
      var last := group[|group| - 1];
      var (st1, frame1, fonts) := SelectedFonts(st, db, frame, request, group[..|group| - 1], size, drivers);
      ExtendsKeepsFont(st.tables, st1.tables, last.1);
      var (st2, frame2, found) := RealizeEntry(st1, db, frame1, request, last, size, drivers);
      ExtendsTrans(st.tables, st1.tables, st2.tables);
      GrowsTrans(frame, frame1, frame2);
      AllOnFrame(frame1, frame2, fonts);
      if found.None? then (st2, frame2, fonts)
      else
        var fonts2 := fonts + [found.value];
        assert forall i :: 0 <= i < |fonts| ==> fonts2[i] == fonts[i];
        (st2, frame2, fonts2)
  }

  /** The fonts inserted one after another, each before the first font of
      a strictly higher score: a stable sort by score. */
  function SortByScore(fonts: seq<RealizedFont>): (r: seq<RealizedFont>)
    ensures SortedByScore(r) && multiset(r) == multiset(fonts)
    ensures forall v :: WithScore(r, v) == WithScore(fonts, v)
    decreases |fonts|
  {
    if |fonts| == 0 then []
    else
      var init := fonts[..|fonts| - 1];
      var x := fonts[|fonts| - 1];
      InsertStep(SortByScore(init), init, x);
      assert init + [x] == fonts;
      InsertByScore(SortByScore(init), x)
  }

  /** `realize_font_group`: each (layouter, spec) of the group, in order,
      has the request resized for it and is selected on the frame; each
      font found enters the realized group before the first font of a
      strictly higher score.  Where a font is inserted never affects the
      later selections, so this is the selection (SelectedFonts) followed
      by the insertions (SortByScore).  The result holds exactly the fonts
      the entries select, sorted by score, fonts of equal score in the
      order of their entries, each filed on the frame. */
  function RealizeFontGroup(st: FontState, db: Option<seq<Elem>>, frame: FrameFonts, request: MFont,
                            group: Group, size: int, drivers: DriverSelect)
    : (r: (FontState, FrameFonts, seq<RealizedFont>))
    requires StateOk(st) && forall i :: 0 <= i < |group| ==> FontOk(st.tables, group[i].1)
    ensures StateOk(r.0) && Extends(st.tables, r.0.tables) && Grows(frame, r.1)
    ensures SortedByScore(r.2) && |r.2| <= |group|
    ensures forall i :: 0 <= i < |r.2| ==> OnFrame(r.1, r.2[i])
    ensures var sel := SelectedFonts(st, db, frame, request, group, size, drivers);
            (r.0, r.1) == (sel.0, sel.1)
  {
    var (st1, frame1, fonts) := SelectedFonts(st, db, frame, request, group, size, drivers);
    var sorted := SortByScore(fonts);
    forall i | 0 <= i < |sorted| ensures OnFrame(frame1, sorted[i]) {
      assert sorted[i] in multiset(fonts);
      var j :| 0 <= j < |fonts| && fonts[j] == sorted[i];
    }
    (st1, frame1, sorted)
  }

  /** The realized group holds exactly the fonts the entries select, and
      fonts of equal score keep the order of their entries. */
  lemma RealizeFontGroupSelects(st: FontState, db: Option<seq<Elem>>, frame: FrameFonts, request: MFont,
                                group: Group, size: int, drivers: DriverSelect)
    requires StateOk(st) && forall i :: 0 <= i < |group| ==> FontOk(st.tables, group[i].1)
    ensures var r := RealizeFontGroup(st, db, frame, request, group, size, drivers);
            var sel := SelectedFonts(st, db, frame, request, group, size, drivers);
            && multiset(r.2) == multiset(sel.2)
            && forall v :: WithScore(r.2, v) == WithScore(sel.2, v)
  {
  }

  /** The loop of `realize_font_group` as it is written: each entry in
      turn is selected and its font, if any, inserted at once into the
      fonts realized so far. */
  function RealizeLoop(st: FontState, db: Option<seq<Elem>>, frame: FrameFonts, request: MFont,
                       group: Group, size: int, drivers: DriverSelect)
    : (r: (FontState, FrameFonts, seq<RealizedFont>))
    requires StateOk(st) && forall i :: 0 <= i < |group| ==> FontOk(st.tables, group[i].1)
    ensures StateOk(r.0) && Extends(st.tables, r.0.tables)
    decreases |group|
  {
    if |group| == 0 then (st, frame, [])
    else
      var last := group[|group| - 1];
      var (st1, frame1, fonts) := RealizeLoop(st, db, frame, request, group[..|group| - 1], size, drivers);
      ExtendsKeepsFont(st.tables, st1.tables, last.1);
      var (st2, frame2, found) := RealizeEntry(st1, db, frame1, request, last, size, drivers);
      ExtendsTrans(st.tables, st1.tables, st2.tables);
      (st2, frame2, if found.None? then fonts else InsertByScore(fonts, found.value))
  }

  /** Inserting each font as soon as it is selected gives the same state,
      frame and fonts as selecting them all and then sorting: the
      insertions never feed back into the selections. */
  lemma {:induction false} RealizeLoopIsRealizeFontGroup(st: FontState, db: Option<seq<Elem>>, frame: FrameFonts,
                                                         request: MFont, group: Group, size: int,
                                                         drivers: DriverSelect)
    requires StateOk(st) && forall i :: 0 <= i < |group| ==> FontOk(st.tables, group[i].1)
    ensures RealizeLoop(st, db, frame, request, group, size, drivers)
            == RealizeFontGroup(st, db, frame, request, group, size, drivers)
    decreases |group|
  {
    if |group| > 0 {
      var init := group[..|group| - 1];
      var last := group[|group| - 1];
      RealizeLoopIsRealizeFontGroup(st, db, frame, request, init, size, drivers);
      var sel := SelectedFonts(st, db, frame, request, init, size, drivers);
      ExtendsKeepsFont(st.tables, sel.0.tables, last.1);
      var (st2, frame2, found) := RealizeEntry(sel.0, db, sel.1, request, last, size, drivers);
      if found.Some? {
        var fonts := sel.2 + [found.value];
        assert fonts[..|fonts| - 1] == sel.2;
        assert SortByScore(fonts) == InsertByScore(SortByScore(sel.2), found.value);
      }
    }
  }
}
