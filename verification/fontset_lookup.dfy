/** Looking up a font for a run of glyphs in a realized fontset
    (fontset.c: `mfont__lookup_fontset`). */
module FontsetLookup {

  import opened Plist
  import opened FontProps
  import opened FontTables
  import opened FontSelect
  import opened Fontsets
  import opened FontsetRealize

  /** A group of a realized fontset: the one for a charset, the one for a
      language of a script, or the fallback group. */
  datatype GroupRef = CharsetGroup(i: nat) | LanguageGroup(s: nat, l: nat) | FallbackGroup

  predicate RefOk(rs: RealizedFontset, g: GroupRef)
  {
    match g
    case CharsetGroup(i) => i < |rs.perCharset|
    case LanguageGroup(s, l) => s < |rs.perScript| && l < |rs.perScript[s].1|
    case FallbackGroup => true
  }

  function RGroupAt(rs: RealizedFontset, g: GroupRef): RGroup
    requires RefOk(rs, g)
  {
    match g
    case CharsetGroup(i) => rs.perCharset[i].1
    case LanguageGroup(s, l) => rs.perScript[s].1[l].1
    case FallbackGroup => rs.fallback
  }

  /** The realized fontset with one group replaced. */
  function WithGroup(rs: RealizedFontset, g: GroupRef, v: RGroup): (r: RealizedFontset)
    requires RefOk(rs, g)
    ensures |r.perScript| == |rs.perScript| && |r.perCharset| == |rs.perCharset|
    ensures forall s :: 0 <= s < |rs.perScript| ==> |r.perScript[s].1| == |rs.perScript[s].1|
    ensures r.spec == rs.spec
    ensures forall h :: RefOk(rs, h) ==> RefOk(r, h) && RGroupAt(r, h) == if h == g then v else RGroupAt(rs, h)
  {
    match g
    case CharsetGroup(i) => rs.(perCharset := SetAt(rs.perCharset, i, v))
    case LanguageGroup(s, l) =>
      rs.(perScript := SetAt(rs.perScript, s, SetAt(rs.perScript[s].1, l, v)))
    case FallbackGroup => rs.(fallback := v)
  }

  lemma WithGroupOk(t: PropTables, rs: RealizedFontset, g: GroupRef, fonts: seq<RealizedFont>)
    requires RealizedOk(t, rs) && RefOk(rs, g)
    ensures RealizedOk(t, WithGroup(rs, g, Realized(fonts)))
  {
    var r := WithGroup(rs, g, Realized(fonts));
    forall i, j | 0 <= i < |r.perScript| && 0 <= j < |r.perScript[i].1|
      ensures RGroupOk(t, r.perScript[i].1[j].1)
    {
      assert RGroupAt(r, LanguageGroup(i, j)) == r.perScript[i].1[j].1;
      assert RefOk(rs, LanguageGroup(i, j));
    }
    forall i | 0 <= i < |r.perCharset| ensures RGroupOk(t, r.perCharset[i].1) {
      assert RGroupAt(r, CharsetGroup(i)) == r.perCharset[i].1;
      assert RefOk(rs, CharsetGroup(i));
    }
    assert RGroupAt(r, FallbackGroup) == r.fallback;
  }

  // ---------------------------------------------------------------------
  // The groups to try, in order

  /** The language groups of script `s` from position `l` on whose language
      is neither `a` nor `b`. */
  function OtherLanguages(pl: seq<(Symbol, RGroup)>, s: nat, a: Symbol, b: Symbol, l: nat): (r: seq<GroupRef>)
    requires l <= |pl|
    ensures forall k :: 0 <= k < |r| ==> r[k].LanguageGroup? && r[k].s == s && l <= r[k].l < |pl|
                                          && pl[r[k].l].0 != a && pl[r[k].l].0 != b
    ensures forall m :: l <= m < |pl| && pl[m].0 != a && pl[m].0 != b ==> LanguageGroup(s, m) in r
    decreases |pl| - l
  {
    if l == |pl| then []
    else
      var rest := OtherLanguages(pl, s, a, b, l + 1);
      if pl[l].0 != a && pl[l].0 != b then [LanguageGroup(s, l)] + rest else rest
  }

  /** The groups of script `s` in the order they are preferred for
      `language` (`nil` read as `t`): the group of that language; when the
      language is `t`, every other language's group right after it; the
      group of `t` for a specific language; then every group for another
      language. */
  function ScriptGroups(pl: seq<(Symbol, RGroup)>, s: nat, language: Symbol): (r: seq<GroupRef>)
    ensures forall k :: 0 <= k < |r| ==> r[k].LanguageGroup? && r[k].s == s && r[k].l < |pl|
    ensures var exact := FindKey(pl, NilAsT(language));
            var generic := FindKey(pl, T);
            && (exact.Some? ==> |r| > 0 && r[0] == LanguageGroup(s, exact.value))
            && (exact.None? && NilAsT(language) != T && generic.Some? ==> |r| > 0 && r[0] == LanguageGroup(s, generic.value))
  {
    var lang := NilAsT(language);
    var exact := FindKey(pl, lang);
    var first := if exact.None? then []
                 else [LanguageGroup(s, exact.value)] + (if lang == T then OtherLanguages(pl, s, T, T, 0) else []);
    var generic := FindKey(pl, T);
    var second := if lang != T && generic.Some? then [LanguageGroup(s, generic.value)] else [];
    first + second + OtherLanguages(pl, s, lang, T, 0)
  }

  /** Language groups whose positions in the language list strictly increase. */
  predicate InListOrder(r: seq<GroupRef>)
  {
    forall i, j :: 0 <= i < j < |r| && r[i].LanguageGroup? && r[j].LanguageGroup? ==> r[i].l < r[j].l
  }

  lemma ConsInOrder(x: GroupRef, rest: seq<GroupRef>)
    requires x.LanguageGroup? && InListOrder(rest)
    requires forall k :: 0 <= k < |rest| && rest[k].LanguageGroup? ==> x.l < rest[k].l
    ensures InListOrder([x] + rest)
  {
    var r := [x] + rest;
    forall i, j | 0 <= i < j < |r| && r[i].LanguageGroup? && r[j].LanguageGroup? ensures r[i].l < r[j].l {
      assert r[j] == rest[j - 1];
      if i > 0 {
        assert r[i] == rest[i - 1];
      }
    }
  }

  /** The groups are listed in the order of the script's language list,
      so the list above is exactly the other languages' groups in order. */
  lemma {:induction false} OtherLanguagesInOrder(pl: seq<(Symbol, RGroup)>, s: nat, a: Symbol, b: Symbol, l: nat)
    requires l <= |pl|
    ensures InListOrder(OtherLanguages(pl, s, a, b, l))
    decreases |pl| - l
  {
    if l < |pl| {
      OtherLanguagesInOrder(pl, s, a, b, l + 1);
      var rest := OtherLanguages(pl, s, a, b, l + 1);
      if pl[l].0 != a && pl[l].0 != b {
        ConsInOrder(LanguageGroup(s, l), rest);
      }
    }
  }

  /** The order of a script's groups (fontset.c, preference (1) to (3)):
      the group of the language; then, for the generic language, every
      other language's group; then the group of `t` for a specific
      language; then every group of another language, in list order. */
  lemma ScriptGroupsOrder(pl: seq<(Symbol, RGroup)>, s: nat, language: Symbol)
    ensures var r := ScriptGroups(pl, s, language);
            var lang := NilAsT(language);
            var exact := FindKey(pl, lang);
            var generic := FindKey(pl, T);
            var others := OtherLanguages(pl, s, lang, T, 0);
            var head := (if exact.Some? then 1 else 0) + (if lang != T && generic.Some? then 1 else 0);
            && (exact.Some? && lang != T && generic.Some? ==> |r| > 1 && r[1] == LanguageGroup(s, generic.value))
            && (lang != T ==> |r| == head + |others| && r[head..] == others)
            && (lang == T && exact.Some? ==> |r| == 1 + 2 * |others| && r[1..1 + |others|] == others
                                             && r[1 + |others|..] == others)
            && (lang == T && exact.None? ==> r == others)
  {
    var lang := NilAsT(language);
    var exact := FindKey(pl, lang);
    var generic := FindKey(pl, T);
    var others := OtherLanguages(pl, s, lang, T, 0);
    var first := if exact.None? then []
                 else [LanguageGroup(s, exact.value)] + (if lang == T then OtherLanguages(pl, s, T, T, 0) else []);
    var second := if lang != T && generic.Some? then [LanguageGroup(s, generic.value)] else [];
    var r := ScriptGroups(pl, s, language);
    assert r == first + second + others;
    if lang == T {
      assert second == [];
      if exact.Some? {
        assert r == [LanguageGroup(s, exact.value)] + others + others;
        assert r[1..1 + |others|] == others;
        assert r[1 + |others|..] == others;
      }
    } else {
      assert |first| + |second| == (if exact.Some? then 1 else 0) + (if generic.Some? then 1 else 0);
      assert r[|first| + |second|..] == others;
    }
  }

  /** Every group of the realized fontset: each script's groups in order,
      then each charset's. */
  function AllGroups(rs: RealizedFontset): (r: seq<GroupRef>)
    ensures forall k :: 0 <= k < |r| ==> RefOk(rs, r[k])
    ensures forall g :: RefOk(rs, g) && g != FallbackGroup ==> g in r
  {
    var langs := AllLanguageGroups(rs, 0);
    var charsets := AllCharsetGroups(rs, 0);
    assert forall i :: 0 <= i < |rs.perCharset| ==> CharsetGroup(i) in charsets by {
      forall i | 0 <= i < |rs.perCharset| ensures CharsetGroup(i) in charsets {
        assert charsets[i] == CharsetGroup(i);
      }
    }
    langs + charsets
  }

  /** The groups of script `s` from language position `l` on. */
  function LanguagesFrom(n: nat, s: nat, l: nat): (r: seq<GroupRef>)
    requires l <= n
    ensures |r| == n - l
    ensures forall k :: 0 <= k < |r| ==> r[k] == LanguageGroup(s, l + k)
    decreases n - l
  {
    if l == n then [] else [LanguageGroup(s, l)] + LanguagesFrom(n, s, l + 1)
  }

  function AllLanguageGroups(rs: RealizedFontset, s: nat): (r: seq<GroupRef>)
    requires s <= |rs.perScript|
    ensures forall k :: 0 <= k < |r| ==> RefOk(rs, r[k]) && r[k].LanguageGroup? && r[k].s >= s
    ensures forall g :: RefOk(rs, g) && g.LanguageGroup? && g.s >= s ==> g in r
    decreases |rs.perScript| - s
  {
    if s == |rs.perScript| then []
    else
      var here := LanguagesFrom(|rs.perScript[s].1|, s, 0);
      assert forall m :: 0 <= m < |rs.perScript[s].1| ==> LanguageGroup(s, m) in here by {
        forall m | 0 <= m < |rs.perScript[s].1| ensures LanguageGroup(s, m) in here {
          assert here[m] == LanguageGroup(s, m);
        }
      }
      here + AllLanguageGroups(rs, s + 1)
  }

  function AllCharsetGroups(rs: RealizedFontset, i: nat): (r: seq<GroupRef>)
    requires i <= |rs.perCharset|
    ensures forall k :: 0 <= k < |r| ==> r[k] == CharsetGroup(i + k) && i + k < |rs.perCharset|
    ensures |r| == |rs.perCharset| - i
    decreases |rs.perCharset| - i
  {
    if i == |rs.perCharset| then [] else [CharsetGroup(i)] + AllCharsetGroups(rs, i + 1)
  }

  /** The groups tried for a glyph run, in order: the group of the
      preferred charset when it names a known charset that has one, the
      groups of the script, and the fallback group; when nothing but the
      fallback group is found, every other group follows it. */
  function Candidates(rs: RealizedFontset, script: Symbol, language: Symbol, charset: Symbol,
                      knownCharset: bool): (r: seq<GroupRef>)
  {
    var c := FindKey(rs.perCharset, charset);
    var byCharset := if charset != Nil && knownCharset && c.Some? then [CharsetGroup(c.value)] else [];
    var si := FindKey(rs.perScript, script);
    var byScript := if script != Nil && si.Some? then ScriptGroups(rs.perScript[si.value].1, si.value, language) else [];
    var preferred := byCharset + byScript + [FallbackGroup];
    if |preferred| == 1 then preferred + AllGroups(rs) else preferred
  }

  /** The order of the candidates: the preferred charset's group when
      there is one, the script's groups, the fallback group, and, when
      the fallback group would be the only candidate, every other group
      after it. */
  lemma CandidatesOrder(rs: RealizedFontset, script: Symbol, language: Symbol, charset: Symbol,
                        knownCharset: bool)
    ensures var r := Candidates(rs, script, language, charset, knownCharset);
            var c := FindKey(rs.perCharset, charset);
            var byCharset := charset != Nil && knownCharset && c.Some?;
            var si := FindKey(rs.perScript, script);
            var byScript := if script != Nil && si.Some? then ScriptGroups(rs.perScript[si.value].1, si.value, language) else [];
            var k := if byCharset then 1 else 0;
            && |r| >= k + |byScript| + 1
            && (byCharset ==> r[0] == CharsetGroup(c.value))
            && r[k..k + |byScript|] == byScript
            && r[k + |byScript|] == FallbackGroup
            && (k + |byScript| == 0 ==> r[1..] == AllGroups(rs))
            && (k + |byScript| > 0 ==> |r| == k + |byScript| + 1)
  {
  }

  /** Every candidate names a group of the realized fontset, and the
      fallback group is always among them. */
  lemma CandidatesOk(rs: RealizedFontset, script: Symbol, language: Symbol, charset: Symbol, knownCharset: bool)
    ensures var r := Candidates(rs, script, language, charset, knownCharset);
            (forall k :: 0 <= k < |r| ==> RefOk(rs, r[k])) && FallbackGroup in r
  {
    var si := FindKey(rs.perScript, script);
    if script != Nil && si.Some? {
      var byScript := ScriptGroups(rs.perScript[si.value].1, si.value, language);
      assert forall k :: 0 <= k < |byScript| ==> RefOk(rs, byScript[k]);
    }
  }

  /** No language has two groups in one script: loading and editing file
      each language once. */
  ghost predicate KeysUnique<V>(al: seq<(Symbol, V)>)
  {
    forall i, j :: 0 <= i < j < |al| ==> al[i].0 != al[j].0
  }

  /** With a script found, every one of its language groups is a
      candidate. */
  lemma ScriptGroupsCover(pl: seq<(Symbol, RGroup)>, s: nat, language: Symbol, m: nat)
    requires KeysUnique(pl) && m < |pl|
    ensures LanguageGroup(s, m) in ScriptGroups(pl, s, language)
  {
    var lang := NilAsT(language);
    var r := ScriptGroups(pl, s, language);
    var others := OtherLanguages(pl, s, lang, T, 0);
    assert r[|r| - |others|..] == others;
    if pl[m].0 == lang {
      assert FindKey(pl, lang) == Some(m);
      assert r[0] == LanguageGroup(s, m);
    } else if pl[m].0 == T {
      assert FindKey(pl, T) == Some(m);
      var e := FindKey(pl, lang);
      if e.Some? {
        assert r[1..][|r| - 1 - |others|..] == others;
      }
      assert LanguageGroup(s, m) in r[..|r| - |others|];
    } else {
      assert LanguageGroup(s, m) in others;
    }
  }

  /** The generic language asked for (`t`, or `nil`) with a group of its
      own: every other language's group is listed twice. */
  lemma GenericLanguageListsTwice(pl: seq<(Symbol, RGroup)>, s: nat, language: Symbol, m: nat)
    requires NilAsT(language) == T && FindKey(pl, T).Some?
    requires m < |pl| && pl[m].0 != T
    ensures var r := ScriptGroups(pl, s, language);
            exists i, j :: 0 <= i < j < |r| && r[i] == LanguageGroup(s, m) && r[j] == LanguageGroup(s, m)
  {
    var r := ScriptGroups(pl, s, language);
    var once := OtherLanguages(pl, s, T, T, 0);
    var e := FindKey(pl, T).value;
    assert r == [LanguageGroup(s, e)] + once + once;
    var k :| 0 <= k < |once| && once[k] == LanguageGroup(s, m);
    assert r[1 + k] == LanguageGroup(s, m) && r[1 + |once| + k] == LanguageGroup(s, m);
  }

  // ---------------------------------------------------------------------
  // Finding the font

  /** `mfont__encode_char` on a realized font, as an oracle. */
  type Coder = (RealizedFont, int) -> int

  /** Whether `mfont__open` succeeds on a realized font, as an oracle. */
  type Opener = RealizedFont -> bool

  /** A font is usable for the first `n` glyphs: not known to be broken,
      every one of those glyphs encodes, and the font is open or opens. */
  predicate Displays(f: RealizedFont, glyphs: seq<int>, n: nat, coder: Coder, opener: Opener)
    requires n <= |glyphs|
  {
    && f.status >= 0
    && (forall j :: 0 <= j < n ==> coder(f, glyphs[j]) != InvalidCode)
    && (f.status > 0 || opener(f))
  }

  /** Position of the first font of `fonts` usable for the first `n`
      glyphs. */
  function FirstIndex(fonts: seq<RealizedFont>, glyphs: seq<int>, n: nat, coder: Coder, opener: Opener)
    : (r: Option<nat>)
    requires n <= |glyphs|
    ensures r.Some? ==> r.value < |fonts| && Displays(fonts[r.value], glyphs, n, coder, opener)
    ensures r.Some? ==> forall q :: 0 <= q < r.value ==> !Displays(fonts[q], glyphs, n, coder, opener)
    ensures r.None? ==> forall p :: 0 <= p < |fonts| ==> !Displays(fonts[p], glyphs, n, coder, opener)
  {
    if |fonts| == 0 then None
    else if Displays(fonts[0], glyphs, n, coder, opener) then Some(0)
    else
      var r := FirstIndex(fonts[1..], glyphs, n, coder, opener);
      if r.Some? then Some(r.value + 1) else None
  }

  /** The first font of `fonts` usable for the first `n` glyphs. */
  function FirstFont(fonts: seq<RealizedFont>, glyphs: seq<int>, n: nat, coder: Coder, opener: Opener)
    : Option<RealizedFont>
    requires n <= |glyphs|
  {
    var i := FirstIndex(fonts, glyphs, n, coder, opener);
    if i.Some? then Some(fonts[i.value]) else None
  }

  /** Searching a concatenation searches the first part, then the
      second. */
  lemma FirstFontAppend(a: seq<RealizedFont>, b: seq<RealizedFont>, glyphs: seq<int>, n: nat,
                        coder: Coder, opener: Opener)
    requires n <= |glyphs|
    ensures FirstFont(a + b, glyphs, n, coder, opener)
            == if FirstFont(a, glyphs, n, coder, opener).Some? then FirstFont(a, glyphs, n, coder, opener)
               else FirstFont(b, glyphs, n, coder, opener)
  {
    var ia := FirstIndex(a, glyphs, n, coder, opener);
    var ib := FirstIndex(b, glyphs, n, coder, opener);
    var iab := FirstIndex(a + b, glyphs, n, coder, opener);
    if ia.Some? {
      FirstIndexIs(a + b, glyphs, n, coder, opener, ia.value);
    } else if ib.Some? {
      assert (a + b)[|a| + ib.value] == b[ib.value];
      assert forall q :: |a| <= q < |a| + ib.value ==> (a + b)[q] == b[q - |a|];
      FirstIndexIs(a + b, glyphs, n, coder, opener, |a| + ib.value);
    } else {
      assert forall q :: |a| <= q < |a + b| ==> (a + b)[q] == b[q - |a|];
    }
  }

  /** The first usable position is the only position that is usable with
      none usable before it. */
  lemma FirstIndexIs(fonts: seq<RealizedFont>, glyphs: seq<int>, n: nat, coder: Coder, opener: Opener, p: nat)
    requires n <= |glyphs| && p < |fonts| && Displays(fonts[p], glyphs, n, coder, opener)
    requires forall q :: 0 <= q < p ==> !Displays(fonts[q], glyphs, n, coder, opener)
    ensures FirstIndex(fonts, glyphs, n, coder, opener) == Some(p)
  {
  }

  function GroupFonts(g: RGroup): seq<RealizedFont>
  {
    if g.Realized? then g.fonts else []
  }

  /** The fonts of the candidate groups, in candidate order; a group not
      yet realized contributes nothing. */
  function Flatten(rs: RealizedFontset, cands: seq<GroupRef>): seq<RealizedFont>
    requires forall k :: 0 <= k < |cands| ==> RefOk(rs, cands[k])
  {
    if |cands| == 0 then []
    else Flatten(rs, cands[..|cands| - 1]) + GroupFonts(RGroupAt(rs, cands[|cands| - 1]))
  }

  lemma {:induction false} FlattenAppend(rs: RealizedFontset, a: seq<GroupRef>, b: seq<GroupRef>)
    requires forall k :: 0 <= k < |a| ==> RefOk(rs, a[k])
    requires forall k :: 0 <= k < |b| ==> RefOk(rs, b[k])
    ensures Flatten(rs, a + b) == Flatten(rs, a) + Flatten(rs, b)
    decreases |b|
  {
    if |b| == 0 {
      assert a + b == a;
    } else {
      var b0 := b[..|b| - 1];
      assert (a + b)[..|a + b| - 1] == a + b0;
      FlattenAppend(rs, a, b0);
    }
  }

  /** Realizing a pending group leaves the fonts of realized groups as
      they were. */
  lemma {:induction false} FlattenAgree(rs: RealizedFontset, rs2: RealizedFontset, cands: seq<GroupRef>)
    requires forall k :: 0 <= k < |cands| ==> RefOk(rs, cands[k]) && RefOk(rs2, cands[k])
    requires forall k :: 0 <= k < |cands| ==> RGroupAt(rs2, cands[k]) == RGroupAt(rs, cands[k])
    ensures Flatten(rs2, cands) == Flatten(rs, cands)
    decreases |cands|
  {
    if |cands| > 0 {
      FlattenAgree(rs, rs2, cands[..|cands| - 1]);
    }
  }

  lemma RGroupAtOk(t: PropTables, rs: RealizedFontset, g: GroupRef)
    requires RealizedOk(t, rs) && RefOk(rs, g)
    ensures RGroupOk(t, RGroupAt(rs, g))
  {
  }

  /** A candidate group reached for the first time is realized in place;
      a group already realized is left alone. */
  function RealizeAt(st: FontState, db: Option<seq<Elem>>, frame: FrameFonts, rs: RealizedFontset,
                     g: GroupRef, size: int, drivers: DriverSelect)
    : (r: (FontState, FrameFonts, RealizedFontset))
    requires StateOk(st) && RealizedOk(st.tables, rs) && RefOk(rs, g)
    ensures StateOk(r.0) && Extends(st.tables, r.0.tables) && Grows(frame, r.1)
    ensures RealizedOk(r.0.tables, r.2) && r.2.spec == rs.spec
    ensures RGroupAt(rs, g).Realized? ==> r == (st, frame, rs)
    ensures forall h :: RefOk(rs, h) ==> RefOk(r.2, h) && (h != g ==> RGroupAt(r.2, h) == RGroupAt(rs, h))
    ensures RefOk(r.2, g) && RGroupAt(r.2, g).Realized?
  {
    RGroupAtOk(st.tables, rs, g);
    if RGroupAt(rs, g).Realized? then (st, frame, rs)
    else
      var (st2, frame2, fonts) := RealizeFontGroup(st, db, frame, rs.spec, RGroupAt(rs, g).group, size, drivers);
      RealizedOkExtends(st.tables, st2.tables, rs);
      WithGroupOk(st2.tables, rs, g, fonts);
      (st2, frame2, WithGroup(rs, g, Realized(fonts)))
  }

  /** Realizing candidate `g` as the lookup loop does, one group at a
      time; see `RealizeAt`. */
  method RealizeGroup(st: FontState, db: Option<seq<Elem>>, frame: FrameFonts, rs: RealizedFontset,
                      g: GroupRef, size: int, drivers: DriverSelect)
    returns (st2: FontState, frame2: FrameFonts, rs2: RealizedFontset)
    requires StateOk(st) && RealizedOk(st.tables, rs) && RefOk(rs, g)
    ensures StateOk(st2) && Extends(st.tables, st2.tables) && Grows(frame, frame2)
    ensures RealizedOk(st2.tables, rs2) && rs2.spec == rs.spec
    ensures RGroupAt(rs, g).Realized? ==> rs2 == rs
    ensures forall h :: RefOk(rs, h) ==> RefOk(rs2, h) && (h != g ==> RGroupAt(rs2, h) == RGroupAt(rs, h))
    ensures RefOk(rs2, g) && RGroupAt(rs2, g).Realized?
    ensures (st2, frame2, rs2) == RealizeAt(st, db, frame, rs, g, size, drivers)
  {
    var step := RealizeAt(st, db, frame, rs, g, size, drivers);
    st2, frame2, rs2 := step.0, step.1, step.2;
  }

  /** A pending group is realized from its own entries, for the
      fontset's spec. */
  lemma RealizeAtRealizes(st: FontState, db: Option<seq<Elem>>, frame: FrameFonts, rs: RealizedFontset,
                          g: GroupRef, size: int, drivers: DriverSelect)
    requires StateOk(st) && RealizedOk(st.tables, rs) && RefOk(rs, g) && RGroupAt(rs, g).Pending?
    ensures RGroupOk(st.tables, RGroupAt(rs, g))
    ensures var r := RealizeAt(st, db, frame, rs, g, size, drivers);
            var fonts := RealizeFontGroup(st, db, frame, rs.spec, RGroupAt(rs, g).group, size, drivers);
            r == (fonts.0, fonts.1, WithGroup(rs, g, Realized(fonts.2)))
  {
    RGroupAtOk(st.tables, rs, g);
  }

  /** The first `n` candidate groups realized one after another, in
      order, as the lookup reaches them. */
  function RealizeThrough(st: FontState, db: Option<seq<Elem>>, frame: FrameFonts, rs: RealizedFontset,
                          cands: seq<GroupRef>, n: nat, size: int, drivers: DriverSelect)
    : (r: (FontState, FrameFonts, RealizedFontset))
    requires StateOk(st) && RealizedOk(st.tables, rs)
    requires n <= |cands| && forall k :: 0 <= k < |cands| ==> RefOk(rs, cands[k])
    ensures StateOk(r.0) && Extends(st.tables, r.0.tables) && Grows(frame, r.1)
    ensures RealizedOk(r.0.tables, r.2) && r.2.spec == rs.spec
    ensures forall k :: 0 <= k < |cands| ==> RefOk(r.2, cands[k])
    ensures AllRealized(r.2, cands[..n])
    decreases n
  {
    if n == 0 then (st, frame, rs)
    else
      var p := RealizeThrough(st, db, frame, rs, cands, n - 1, size, drivers);
      var q := RealizeAt(p.0, db, p.1, p.2, cands[n - 1], size, drivers);
      ExtendsTrans(st.tables, p.0.tables, q.0.tables);
      GrowsTrans(frame, p.1, q.1);
      ThroughLast(p.2, q.2, cands, n - 1);
      q
  }

  /** Realizing candidate `i` keeps the earlier ones realized. */
  lemma ThroughLast(rs: RealizedFontset, rs2: RealizedFontset, cands: seq<GroupRef>, i: nat)
    requires i < |cands| && AllRealized(rs, cands[..i])
    requires forall h :: RefOk(rs, h) ==> RefOk(rs2, h) && (h != cands[i] ==> RGroupAt(rs2, h) == RGroupAt(rs, h))
    requires RefOk(rs2, cands[i]) && RGroupAt(rs2, cands[i]).Realized?
    ensures AllRealized(rs2, cands[..i + 1])
  {
    var upto := cands[..i + 1];
    forall k | 0 <= k < |upto| ensures RefOk(rs2, upto[k]) && RGroupAt(rs2, upto[k]).Realized? {
      if k < i {
        assert upto[k] == cands[..i][k];
      }
    }
  }

  /** One step of the first pass: candidate `i` is realized, the state is
      the fold one candidate further, and `here`, the first font of group
      `i` displaying every glyph, is the first among the groups up to `i`. */
  method Advance(st: FontState, db: Option<seq<Elem>>, frame: FrameFonts, rs: RealizedFontset,
                 cands: seq<GroupRef>, i: nat, glyphs: seq<int>, size: int, drivers: DriverSelect,
                 coder: Coder, opener: Opener, cur: (FontState, FrameFonts, RealizedFontset))
    returns (next: (FontState, FrameFonts, RealizedFontset), here: Option<RealizedFont>)
    requires StateOk(st) && RealizedOk(st.tables, rs)
    requires i < |cands| && forall k :: 0 <= k < |cands| ==> RefOk(rs, cands[k])
    requires cur == RealizeThrough(st, db, frame, rs, cands, i, size, drivers)
    requires FirstFont(Flatten(cur.2, cands[..i]), glyphs, |glyphs|, coder, opener).None?
    ensures next == RealizeThrough(st, db, frame, rs, cands, i + 1, size, drivers)
    ensures here == FirstFont(GroupFonts(RGroupAt(next.2, cands[i])), glyphs, |glyphs|, coder, opener)
    ensures FirstFont(Flatten(next.2, cands[..i + 1]), glyphs, |glyphs|, coder, opener) == here
    ensures FirstFont(Flatten(next.2, cands[..i]), glyphs, |glyphs|, coder, opener).None?
  {
    var st2, frame2, rs2 := RealizeGroup(cur.0, db, cur.1, cur.2, cands[i], size, drivers);
    RealizeStep(cur.2, rs2, cands, i, glyphs, coder, opener);
    next := (st2, frame2, rs2);
    here := FirstFont(GroupFonts(RGroupAt(rs2, cands[i])), glyphs, |glyphs|, coder, opener);
  }

  /** One step of the first pass, stated for any fontset `rs2` that
      agrees with `rs` except that candidate `i` is now realized: the
      candidates before `i` stay realized with the same fonts, and the
      first usable font up to `i` is the first of group `i`. */
  lemma RealizeStep(rs: RealizedFontset, rs2: RealizedFontset, cands: seq<GroupRef>, i: nat,
                    glyphs: seq<int>, coder: Coder, opener: Opener)
    requires i < |cands| && forall k :: 0 <= k < |cands| ==> RefOk(rs, cands[k])
    requires AllRealized(rs, cands[..i])
    requires FirstFont(Flatten(rs, cands[..i]), glyphs, |glyphs|, coder, opener).None?
    requires forall h :: RefOk(rs, h) ==> RefOk(rs2, h) && (h != cands[i] ==> RGroupAt(rs2, h) == RGroupAt(rs, h))
    requires RGroupAt(rs, cands[i]).Realized? ==> rs2 == rs
    requires RGroupAt(rs2, cands[i]).Realized?
    ensures forall k :: 0 <= k < |cands| ==> RefOk(rs2, cands[k])
    ensures AllRealized(rs2, cands[..i + 1])
    ensures Flatten(rs2, cands[..i]) == Flatten(rs, cands[..i])
    ensures var here := FirstFont(GroupFonts(RGroupAt(rs2, cands[i])), glyphs, |glyphs|, coder, opener);
            && FirstFont(Flatten(rs2, cands[..i + 1]), glyphs, |glyphs|, coder, opener) == here
            && (here.Some? ==> FirstFont(Flatten(rs2, cands), glyphs, |glyphs|, coder, opener) == here)
  {
    var done := cands[..i];
    if RGroupAt(rs, cands[i]).Pending? {
      assert forall k :: 0 <= k < |done| ==> done[k] != cands[i];
      FlattenAgree(rs, rs2, done);
    }
    AllRealizedExtend(rs2, cands, i);
    ScanStep(rs2, cands, i, glyphs, |glyphs|, coder, opener);
  }

  lemma SuffixOk(rs: RealizedFontset, cands: seq<GroupRef>, m: nat)
    requires m <= |cands| && forall k :: 0 <= k < |cands| ==> RefOk(rs, cands[k])
    ensures forall k :: 0 <= k < |cands[m..]| ==> RefOk(rs, cands[m..][k])
  {
    forall k | 0 <= k < |cands[m..]| ensures RefOk(rs, cands[m..][k]) {
      assert cands[m..][k] == cands[m + k];
    }
  }

  /** The fonts of the candidates up to `i` are those before `i`
      followed by group `i`'s. */
  lemma ScanHere(rs: RealizedFontset, cands: seq<GroupRef>, i: nat, glyphs: seq<int>, n: nat,
                 coder: Coder, opener: Opener)
    requires i < |cands| && n <= |glyphs| && forall k :: 0 <= k < |cands| ==> RefOk(rs, cands[k])
    requires FirstFont(Flatten(rs, cands[..i]), glyphs, n, coder, opener).None?
    ensures FirstFont(Flatten(rs, cands[..i + 1]), glyphs, n, coder, opener)
            == FirstFont(GroupFonts(RGroupAt(rs, cands[i])), glyphs, n, coder, opener)
  {
    var upto := cands[..i + 1];
    assert upto[..i] == cands[..i] && upto[i] == cands[i];
    assert Flatten(rs, upto) == Flatten(rs, cands[..i]) + GroupFonts(RGroupAt(rs, cands[i]));
    FirstFontAppend(Flatten(rs, cands[..i]), GroupFonts(RGroupAt(rs, cands[i])), glyphs, n, coder, opener);
  }

  /** A usable font among the groups `a` stays the first one when more
      groups follow. */
  lemma FoundBefore(rs: RealizedFontset, a: seq<GroupRef>, b: seq<GroupRef>, glyphs: seq<int>, n: nat,
                    coder: Coder, opener: Opener)
    requires n <= |glyphs|
    requires forall k :: 0 <= k < |a| ==> RefOk(rs, a[k])
    requires forall k :: 0 <= k < |b| ==> RefOk(rs, b[k])
    requires FirstFont(Flatten(rs, a), glyphs, n, coder, opener).Some?
    ensures forall k :: 0 <= k < |a + b| ==> RefOk(rs, (a + b)[k])
    ensures FirstFont(Flatten(rs, a + b), glyphs, n, coder, opener) == FirstFont(Flatten(rs, a), glyphs, n, coder, opener)
  {
    FlattenAppend(rs, a, b);
    FirstFontAppend(Flatten(rs, a), Flatten(rs, b), glyphs, n, coder, opener);
  }

  /** A usable font among the candidates up to `i` is the first among
      all of them. */
  lemma ScanFound(rs: RealizedFontset, cands: seq<GroupRef>, i: nat, glyphs: seq<int>, n: nat,
                  coder: Coder, opener: Opener)
    requires i < |cands| && n <= |glyphs| && forall k :: 0 <= k < |cands| ==> RefOk(rs, cands[k])
    requires FirstFont(Flatten(rs, cands[..i + 1]), glyphs, n, coder, opener).Some?
    ensures FirstFont(Flatten(rs, cands), glyphs, n, coder, opener)
            == FirstFont(Flatten(rs, cands[..i + 1]), glyphs, n, coder, opener)
  {
    var a, b := cands[..i + 1], cands[i + 1..];
    SuffixOk(rs, cands, i + 1);
    FoundBefore(rs, a, b, glyphs, n, coder, opener);
    assert a + b == cands;
  }

  /** One candidate further: with no usable font among the groups before
      position `i`, the first usable font of the groups up to `i` is the
      first of group `i`, and when group `i` has one it is the first of all
      the candidates. */
  lemma ScanStep(rs: RealizedFontset, cands: seq<GroupRef>, i: nat, glyphs: seq<int>, n: nat,
                 coder: Coder, opener: Opener)
    requires i < |cands| && n <= |glyphs| && forall k :: 0 <= k < |cands| ==> RefOk(rs, cands[k])
    requires FirstFont(Flatten(rs, cands[..i]), glyphs, n, coder, opener).None?
    ensures var here := FirstFont(GroupFonts(RGroupAt(rs, cands[i])), glyphs, n, coder, opener);
            && FirstFont(Flatten(rs, cands[..i + 1]), glyphs, n, coder, opener) == here
            && (here.Some? ==> FirstFont(Flatten(rs, cands), glyphs, n, coder, opener) == here)
  {
    ScanHere(rs, cands, i, glyphs, n, coder, opener);
    if FirstFont(Flatten(rs, cands[..i + 1]), glyphs, n, coder, opener).Some? {
      ScanFound(rs, cands, i, glyphs, n, coder, opener);
    }
  }

  lemma AllRealizedExtend(rs: RealizedFontset, cands: seq<GroupRef>, i: nat)
    requires i < |cands| && AllRealized(rs, cands[..i])
    requires RefOk(rs, cands[i]) && RGroupAt(rs, cands[i]).Realized?
    ensures AllRealized(rs, cands[..i + 1])
  {
    assert forall k :: 0 <= k < i ==> cands[..i + 1][k] == cands[..i][k];
  }

  lemma GrowsTrans<X>(a: seq<X>, b: seq<X>, c: seq<X>)
    requires Grows(a, b) && Grows(b, c)
    ensures Grows(a, c)
  {
    assert c[..|b|][..|a|] == c[..|a|];
  }

  /** What a lookup finds: a font for every glyph with their codes, a
      font for the first glyph only with its code, or nothing. */
  datatype LookupResult =
    | AllGlyphs(font: RealizedFont, codes: seq<int>)
    | FirstGlyph(font: RealizedFont, code: int)
    | NoFont

  ghost predicate AllRealized(rs: RealizedFontset, cands: seq<GroupRef>)
  {
    forall k :: 0 <= k < |cands| ==> RefOk(rs, cands[k]) && RGroupAt(rs, cands[k]).Realized?
  }

  /** The first pass of `mfont__lookup_fontset`: the candidate groups in
      order, each realized when first reached, are searched for a font
      displaying every glyph.  `reached` counts the groups reached: the
      state is that of realizing exactly those, in order; the font found
      is the first such font of their fonts in order, and is held by the
      last of them, the first group to hold one; when there is none every
      candidate has been reached.  `ScanEnd` shows that this font is the
      first of all the candidates, and `StopUnique` that the pass can stop
      nowhere else. */
  method LookupAll(st: FontState, db: Option<seq<Elem>>, frame: FrameFonts, rs: RealizedFontset,
                   cands: seq<GroupRef>, glyphs: seq<int>, size: int, drivers: DriverSelect,
                   coder: Coder, opener: Opener)
    returns (st1: FontState, frame1: FrameFonts, rs1: RealizedFontset, found: Option<RealizedFont>,
             reached: nat)
    requires StateOk(st) && RealizedOk(st.tables, rs)
    requires forall k :: 0 <= k < |cands| ==> RefOk(rs, cands[k])
    ensures reached <= |cands|
    ensures (st1, frame1, rs1) == RealizeThrough(st, db, frame, rs, cands, reached, size, drivers)
    ensures found.None? ==> reached == |cands|
    ensures found.Some? ==> reached > 0
                            && found == FirstFont(GroupFonts(RGroupAt(rs1, cands[reached - 1])), glyphs, |glyphs|, coder, opener)
                            && FirstFont(Flatten(rs1, cands[..reached - 1]), glyphs, |glyphs|, coder, opener).None?
    ensures forall k :: 0 <= k < |cands| ==> RefOk(rs1, cands[k])
    ensures found == FirstFont(Flatten(rs1, cands[..reached]), glyphs, |glyphs|, coder, opener)
    ensures StopsAt(rs1, cands, reached, glyphs, coder, opener)
  {
    var cur := (st, frame, rs);
    var i := 0;
    found := None;
    while i < |cands| && found.None?
      invariant 0 <= i <= |cands|
      invariant cur == RealizeThrough(st, db, frame, rs, cands, i, size, drivers)
      invariant found == FirstFont(Flatten(cur.2, cands[..i]), glyphs, |glyphs|, coder, opener)
      invariant found.Some? ==> i > 0 && found == FirstFont(GroupFonts(RGroupAt(cur.2, cands[i - 1])), glyphs, |glyphs|, coder, opener)
      invariant found.Some? ==> FirstFont(Flatten(cur.2, cands[..i - 1]), glyphs, |glyphs|, coder, opener).None?
    {
      cur, found := Advance(st, db, frame, rs, cands, i, glyphs, size, drivers, coder, opener, cur);
      i := i + 1;
    }
    st1, frame1, rs1, reached := cur.0, cur.1, cur.2, i;
  }

  /** Where the first pass stops, the font found so far is the first of
      all the candidates: either a font was found, or every candidate was
      searched. */
  lemma ScanEnd(rs: RealizedFontset, cands: seq<GroupRef>, i: nat, found: Option<RealizedFont>,
                glyphs: seq<int>, coder: Coder, opener: Opener)
    requires i <= |cands| && forall k :: 0 <= k < |cands| ==> RefOk(rs, cands[k])
    requires found == FirstFont(Flatten(rs, cands[..i]), glyphs, |glyphs|, coder, opener)
    requires found.None? ==> i == |cands|
    requires found.Some? ==> i > 0
    ensures found == FirstFont(Flatten(rs, cands), glyphs, |glyphs|, coder, opener)
  {
    if found.Some? {
      ScanFound(rs, cands, i - 1, glyphs, |glyphs|, coder, opener);
    } else {
      assert cands[..i] == cands;
    }
  }

  /** Fontsets `a` and `b` hold the same groups for the candidates in
      `done`. */
  ghost predicate SameGroups(a: RealizedFontset, b: RealizedFontset, done: seq<GroupRef>)
  {
    forall k :: 0 <= k < |done| ==> RefOk(a, done[k]) && RefOk(b, done[k]) && RGroupAt(a, done[k]) == RGroupAt(b, done[k])
  }

  lemma SameGroupsTrans(a: RealizedFontset, b: RealizedFontset, c: RealizedFontset, done: seq<GroupRef>)
    requires SameGroups(a, b, done) && SameGroups(b, c, done)
    ensures SameGroups(a, c, done)
  {
  }

  /** Realizing one more group leaves the groups already realized as
      they were. */
  lemma AtKeepsRealized(st: FontState, db: Option<seq<Elem>>, frame: FrameFonts, rs: RealizedFontset,
                        g: GroupRef, done: seq<GroupRef>, size: int, drivers: DriverSelect)
    requires StateOk(st) && RealizedOk(st.tables, rs) && RefOk(rs, g) && AllRealized(rs, done)
    ensures SameGroups(RealizeAt(st, db, frame, rs, g, size, drivers).2, rs, done)
  {
  }

  /** Realizing later candidates leaves the first `j` candidate groups as
      realizing just those `j` made them. */
  lemma {:induction false} ThroughStable(st: FontState, db: Option<seq<Elem>>, frame: FrameFonts,
                                         rs: RealizedFontset, cands: seq<GroupRef>, j: nat, m: nat,
                                         size: int, drivers: DriverSelect)
    requires StateOk(st) && RealizedOk(st.tables, rs)
    requires j <= m <= |cands| && forall k :: 0 <= k < |cands| ==> RefOk(rs, cands[k])
    ensures SameGroups(RealizeThrough(st, db, frame, rs, cands, m, size, drivers).2,
                       RealizeThrough(st, db, frame, rs, cands, j, size, drivers).2, cands[..j])
    decreases m
  {
    var here := RealizeThrough(st, db, frame, rs, cands, m, size, drivers).2;
    var upto := RealizeThrough(st, db, frame, rs, cands, j, size, drivers).2;
    if j < m {
      var prev := RealizeThrough(st, db, frame, rs, cands, m - 1, size, drivers).2;
      ThroughStable(st, db, frame, rs, cands, j, m - 1, size, drivers);
      ThroughOneMore(st, db, frame, rs, cands, j, m, size, drivers);
      SameGroupsTrans(here, prev, upto, cands[..j]);
    } else {
      assert forall k :: 0 <= k < j ==> RefOk(upto, cands[..j][k]);
    }
  }

  lemma ThroughOneMore(st: FontState, db: Option<seq<Elem>>, frame: FrameFonts, rs: RealizedFontset,
                       cands: seq<GroupRef>, j: nat, m: nat, size: int, drivers: DriverSelect)
    requires StateOk(st) && RealizedOk(st.tables, rs)
    requires j < m <= |cands| && forall k :: 0 <= k < |cands| ==> RefOk(rs, cands[k])
    ensures SameGroups(RealizeThrough(st, db, frame, rs, cands, m, size, drivers).2,
                       RealizeThrough(st, db, frame, rs, cands, m - 1, size, drivers).2, cands[..j])
  {
    var p := RealizeThrough(st, db, frame, rs, cands, m - 1, size, drivers);
    var done := cands[..m - 1];
    AtKeepsRealized(p.0, db, p.1, p.2, cands[m - 1], done, size, drivers);
    assert forall k :: 0 <= k < j ==> cands[..j][k] == done[k];
  }

  /** The first pass stops after `n` candidates: the last group reached is
      the first to hold a font displaying every glyph, or no group holds
      one and every candidate has been reached. */
  ghost predicate StopsAt(rs: RealizedFontset, cands: seq<GroupRef>, n: nat, glyphs: seq<int>,
                          coder: Coder, opener: Opener)
    requires n <= |cands| && forall k :: 0 <= k < |cands| ==> RefOk(rs, cands[k])
  {
    var f := FirstFont(Flatten(rs, cands[..n]), glyphs, |glyphs|, coder, opener);
    && (f.None? ==> n == |cands|)
    && (f.Some? ==> n > 0 && FirstFont(Flatten(rs, cands[..n - 1]), glyphs, |glyphs|, coder, opener).None?)
  }

  /** Before the point where the first pass stops, no candidate group
      holds a font displaying every glyph. */
  lemma NothingBeforeStop(st: FontState, db: Option<seq<Elem>>, frame: FrameFonts, rs: RealizedFontset,
                          cands: seq<GroupRef>, n1: nat, n2: nat, glyphs: seq<int>, size: int,
                          drivers: DriverSelect, coder: Coder, opener: Opener)
    requires StateOk(st) && RealizedOk(st.tables, rs)
    requires n1 < n2 <= |cands| && forall k :: 0 <= k < |cands| ==> RefOk(rs, cands[k])
    requires StopsAt(RealizeThrough(st, db, frame, rs, cands, n2, size, drivers).2, cands, n2, glyphs, coder, opener)
    ensures FirstFont(Flatten(RealizeThrough(st, db, frame, rs, cands, n1, size, drivers).2, cands[..n1]),
                      glyphs, |glyphs|, coder, opener).None?
  {
    var r1 := RealizeThrough(st, db, frame, rs, cands, n1, size, drivers).2;
    var r2 := RealizeThrough(st, db, frame, rs, cands, n2, size, drivers).2;
    var p := if FirstFont(Flatten(r2, cands[..n2]), glyphs, |glyphs|, coder, opener).Some? then n2 - 1 else n2;
    ThroughStable(st, db, frame, rs, cands, n1, n2, size, drivers);
    FlattenAgree(r1, r2, cands[..n1]);
    if FirstFont(Flatten(r1, cands[..n1]), glyphs, |glyphs|, coder, opener).Some? {
      HitPersists(r2, cands, n1, p, glyphs, coder, opener);
    }
  }

  /** A usable font among the first `j` candidates is still found when
      the search runs over the first `p >= j`. */
  lemma HitPersists(rs: RealizedFontset, cands: seq<GroupRef>, j: nat, p: nat, glyphs: seq<int>,
                    coder: Coder, opener: Opener)
    requires j <= p <= |cands| && forall k :: 0 <= k < |cands| ==> RefOk(rs, cands[k])
    requires FirstFont(Flatten(rs, cands[..j]), glyphs, |glyphs|, coder, opener).Some?
    ensures FirstFont(Flatten(rs, cands[..p]), glyphs, |glyphs|, coder, opener).Some?
  {
    var a, b := cands[..j], cands[j..p];
    assert a + b == cands[..p];
    FoundBefore(rs, a, b, glyphs, |glyphs|, coder, opener);
  }

  /** The first pass has one stopping point, so the number of groups it
      realizes, and with it the state it leaves, is determined by its
      inputs. */
  lemma StopUnique(st: FontState, db: Option<seq<Elem>>, frame: FrameFonts, rs: RealizedFontset,
                   cands: seq<GroupRef>, n1: nat, n2: nat, glyphs: seq<int>, size: int,
                   drivers: DriverSelect, coder: Coder, opener: Opener)
    requires StateOk(st) && RealizedOk(st.tables, rs)
    requires n1 <= |cands| && n2 <= |cands| && forall k :: 0 <= k < |cands| ==> RefOk(rs, cands[k])
    requires StopsAt(RealizeThrough(st, db, frame, rs, cands, n1, size, drivers).2, cands, n1, glyphs, coder, opener)
    requires StopsAt(RealizeThrough(st, db, frame, rs, cands, n2, size, drivers).2, cands, n2, glyphs, coder, opener)
    ensures n1 == n2
  {
    if n1 < n2 {
      NothingBeforeStop(st, db, frame, rs, cands, n1, n2, glyphs, size, drivers, coder, opener);
    } else if n2 < n1 {
      NothingBeforeStop(st, db, frame, rs, cands, n2, n1, glyphs, size, drivers, coder, opener);
    }
  }

  /** The second pass: the realized candidate groups in order are
      searched for a font displaying the first glyph. */
  method LookupFirst(rs: RealizedFontset, cands: seq<GroupRef>, glyphs: seq<int>, coder: Coder, opener: Opener)
    returns (found: Option<RealizedFont>)
    requires |glyphs| >= 1 && forall k :: 0 <= k < |cands| ==> RefOk(rs, cands[k])
    ensures found == FirstFont(Flatten(rs, cands), glyphs, 1, coder, opener)
  {
    var i := 0;
    while i < |cands|
      invariant 0 <= i <= |cands|
      invariant FirstFont(Flatten(rs, cands[..i]), glyphs, 1, coder, opener).None?
    {
      ScanStep(rs, cands, i, glyphs, 1, coder, opener);
      found := FirstFont(GroupFonts(RGroupAt(rs, cands[i])), glyphs, 1, coder, opener);
      if found.Some? {
        return;
      }
      i := i + 1;
    }
    assert cands[..i] == cands;
    found := None;
  }

  /** The two passes of `mfont__lookup_fontset` over a list of candidate
      groups: first for a font displaying every glyph, then for one
      displaying the first glyph. */
  method LookupCandidates(st: FontState, db: Option<seq<Elem>>, frame: FrameFonts, rs: RealizedFontset,
                          cands: seq<GroupRef>, glyphs: seq<int>, size: int, drivers: DriverSelect,
                          coder: Coder, opener: Opener)
    returns (st1: FontState, frame1: FrameFonts, rs1: RealizedFontset, result: LookupResult, ghost reached: nat)
    requires StateOk(st) && RealizedOk(st.tables, rs) && |glyphs| >= 1
    requires forall k :: 0 <= k < |cands| ==> RefOk(rs, cands[k])
    ensures StateOk(st1) && Extends(st.tables, st1.tables) && Grows(frame, frame1)
    ensures RealizedOk(st1.tables, rs1) && rs1.spec == rs.spec
    ensures forall k :: 0 <= k < |cands| ==> RefOk(rs1, cands[k])
    ensures var fonts := Flatten(rs1, cands);
               && (result.AllGlyphs? <==> FirstFont(fonts, glyphs, |glyphs|, coder, opener).Some?)
               && (result.AllGlyphs? ==>
                     && Some(result.font) == FirstFont(fonts, glyphs, |glyphs|, coder, opener)
                     && result.codes == seq(|glyphs|, j requires 0 <= j < |glyphs| => coder(result.font, glyphs[j])))
               && (!result.AllGlyphs? ==> AllRealized(rs1, cands))
               && (result.FirstGlyph? ==>
                     Some(result.font) == FirstFont(fonts, glyphs, 1, coder, opener)
                     && result.code == coder(result.font, glyphs[0]))
               && (result.NoFont? ==> !result.AllGlyphs? && FirstFont(fonts, glyphs, 1, coder, opener).None?)
    ensures reached <= |cands|
    ensures (st1, frame1, rs1) == RealizeThrough(st, db, frame, rs, cands, reached, size, drivers)
    ensures !result.AllGlyphs? ==> reached == |cands|
    ensures result.AllGlyphs? ==>
              reached > 0
              && Some(result.font) == FirstFont(GroupFonts(RGroupAt(rs1, cands[reached - 1])), glyphs, |glyphs|, coder, opener)
              && FirstFont(Flatten(rs1, cands[..reached - 1]), glyphs, |glyphs|, coder, opener).None?
    ensures StopsAt(rs1, cands, reached, glyphs, coder, opener)
  {
    var found, count;
    st1, frame1, rs1, found, count := LookupAll(st, db, frame, rs, cands, glyphs, size, drivers, coder, opener);
    reached := count;
    ScanEnd(rs1, cands, count, found, glyphs, coder, opener);
    if found.Some? {
      var f := found.value;
      result := AllGlyphs(f, seq(|glyphs|, j requires 0 <= j < |glyphs| => coder(f, glyphs[j])));
      return;
    }
    assert cands[..|cands|] == cands;
    var first := LookupFirst(rs1, cands, glyphs, coder, opener);
    if first.Some? {
      result := FirstGlyph(first.value, coder(first.value, glyphs[0]));
    } else {
      result := NoFont;
    }
  }

  /** `mfont__lookup_fontset`: the candidate groups for the script,
      language and charset are searched first for a font displaying every
      glyph, then for one displaying the first glyph.  The font returned
      is the first such font in candidate order, with the glyph codes it
      gives. */
  method Lookup(st: FontState, db: Option<seq<Elem>>, frame: FrameFonts, rs: RealizedFontset,
                glyphs: seq<int>, script: Symbol, language: Symbol, charset: Symbol, knownCharset: bool,
                size: int, drivers: DriverSelect, coder: Coder, opener: Opener)
    returns (st1: FontState, frame1: FrameFonts, rs1: RealizedFontset, result: LookupResult, ghost reached: nat)
    requires StateOk(st) && RealizedOk(st.tables, rs) && |glyphs| >= 1
    ensures StateOk(st1) && Extends(st.tables, st1.tables) && Grows(frame, frame1)
    ensures RealizedOk(st1.tables, rs1) && rs1.spec == rs.spec
    ensures var cands := Candidates(rs, script, language, charset, knownCharset);
            && (forall k :: 0 <= k < |cands| ==> RefOk(rs1, cands[k]))
            && var fonts := Flatten(rs1, cands);
               && (result.AllGlyphs? <==> FirstFont(fonts, glyphs, |glyphs|, coder, opener).Some?)
               && (result.AllGlyphs? ==>
                     && Some(result.font) == FirstFont(fonts, glyphs, |glyphs|, coder, opener)
                     && result.codes == seq(|glyphs|, j requires 0 <= j < |glyphs| => coder(result.font, glyphs[j])))
               && (!result.AllGlyphs? ==> AllRealized(rs1, cands))
               && (result.FirstGlyph? ==>
                     Some(result.font) == FirstFont(fonts, glyphs, 1, coder, opener)
                     && result.code == coder(result.font, glyphs[0]))
               && (result.NoFont? ==> !result.AllGlyphs? && FirstFont(fonts, glyphs, 1, coder, opener).None?)
    ensures var cands := Candidates(rs, script, language, charset, knownCharset);
            && (forall k :: 0 <= k < |cands| ==> RefOk(rs, cands[k]))
            && reached <= |cands|
            && (st1, frame1, rs1) == RealizeThrough(st, db, frame, rs, cands, reached, size, drivers)
            && (!result.AllGlyphs? ==> reached == |cands|)
            && (result.AllGlyphs? ==>
                  reached > 0
                  && Some(result.font)
                     == FirstFont(GroupFonts(RGroupAt(rs1, cands[reached - 1])), glyphs, |glyphs|, coder, opener)
                  && FirstFont(Flatten(rs1, cands[..reached - 1]), glyphs, |glyphs|, coder, opener).None?)
            && StopsAt(rs1, cands, reached, glyphs, coder, opener)
  {
    var cands := Candidates(rs, script, language, charset, knownCharset);
    CandidatesOk(rs, script, language, charset, knownCharset);
    st1, frame1, rs1, result, reached := LookupCandidates(st, db, frame, rs, cands, glyphs, size, drivers, coder, opener);
  }
}
