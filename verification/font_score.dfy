/** The font closeness score and the selection priority (font.c:
    `font_score_priority`, the shift set-up of `mfont__init`,
    `mfont__score`, `mfont_selection_priority`,
    `mfont_set_selection_priority`).

    Each scored axis owns a bit field of the score: two bits for the
    symbolic axes, sixteen for the size.  The field of a higher-priority
    axis sits above every field of a lower-priority one, so comparing
    scores as integers compares the axes in priority order.  Bit 0 flags a
    scalable font. */
module FontScore {

  import opened Plist
  import opened Bits
  import opened FontProps

  /** Number of axes the score looks at. */
  const PrioritySize: nat := 7

  /** The built-in priority, highest first. */
  const DefaultPriority: seq<nat> := [Size, Adstyle, Family, Weight, Style, Stretch, Foundry]

  predicate IsScoredAxis(p: nat)
  {
    p == Size || p == Adstyle || p == Family || p == Weight || p == Style || p == Stretch || p == Foundry
  }

  /** A priority list: the seven scored axes, each exactly once. */
  predicate IsPriority(p: seq<nat>)
  {
    && |p| == PrioritySize
    && (forall i :: 0 <= i < |p| ==> IsScoredAxis(p[i]))
    && (forall i, j :: 0 <= i < j < |p| ==> p[i] != p[j])
  }

  /** Width of an axis's field in the score. */
  function Width(prop: nat): nat
  {
    if prop == Size then 16 else 2
  }

  /** The process-wide score state: the priority list and the shift of
      every axis's field (indexed by axis; unscored axes hold 0). */
  datatype ScoreConfig = ScoreConfig(priority: seq<nat>, shifts: seq<nat>)

  predicate ConfigShape(c: ScoreConfig)
  {
    IsPriority(c.priority) && |c.shifts| == NumProps
  }

  /** The loop of `mfont__init` from priority index `i` down to 0: the
      axis at `i` gets `shift`, the next one up gets `shift` plus this
      axis's width. */
  function ShiftLoop(p: seq<nat>, i: int, shift: nat, acc: seq<nat>): (r: seq<nat>)
    requires -1 <= i < |p| && |acc| == NumProps
    requires forall k :: 0 <= k < |p| ==> p[k] < NumProps
    ensures |r| == NumProps
    decreases i + 1
  {
    if i < 0 then acc
    else ShiftLoop(p, i - 1, shift + Width(p[i]), acc[p[i] := shift])
  }

  /** `font_score_shift_bits` as `mfont__init` computes it from the
      priority `p`, starting from shift 1. */
  function ShiftBits(p: seq<nat>): (r: seq<nat>)
    requires IsPriority(p)
    ensures |r| == NumProps
  {
    ShiftLoop(p, |p| - 1, 1, [0, 0, 0, 0, 0, 0, 0, 0, 0, 0])
  }

  /** Sum of the widths of the axes at priority indices `lo .. hi-1`. */
  function SumWidths(p: seq<nat>, lo: nat, hi: nat): nat
    requires hi <= |p|
    decreases hi
  {
    if hi <= lo then 0 else SumWidths(p, lo, hi - 1) + Width(p[hi - 1])
  }

  lemma {:induction false} SumWidthsSplit(p: seq<nat>, a: nat, b: nat, c: nat)
    requires a <= b <= c <= |p|
    ensures SumWidths(p, a, c) == SumWidths(p, a, b) + SumWidths(p, b, c)
    decreases c
  {
    if b < c {
      SumWidthsSplit(p, a, b, c - 1);
    }
  }

  lemma {:induction false} ShiftLoopSpec(p: seq<nat>, i: int, shift: nat, acc: seq<nat>, k: nat)
    requires -1 <= i < |p| && |acc| == NumProps && k < |p|
    requires forall m :: 0 <= m < |p| ==> p[m] < NumProps
    requires forall m, n :: 0 <= m < n < |p| ==> p[m] != p[n]
    ensures ShiftLoop(p, i, shift, acc)[p[k]]
            == if k as int <= i then shift + SumWidths(p, k + 1, i + 1) else acc[p[k]]
    decreases i + 1
  {
    if i >= 0 {
      ShiftLoopSpec(p, i - 1, shift + Width(p[i]), acc[p[i] := shift], k);
    }
  }

  /** Closed form of the shift set-up: the axis at priority index `i`
      starts at bit 1 plus the widths of all lower-priority axes. */
  lemma ShiftBitsStart(p: seq<nat>, i: nat)
    requires IsPriority(p) && i < |p|
    ensures ShiftBits(p)[p[i]] == 1 + SumWidths(p, i + 1, |p|)
  {
    ShiftLoopSpec(p, |p| - 1, 1, [0, 0, 0, 0, 0, 0, 0, 0, 0, 0], i);
  }

  /** The fields the shift set-up produces are ordered by priority and do
      not overlap: every field starts at bit 1 or above, and the field of a
      lower-priority axis ends at or below the start of every
      higher-priority one. */
  lemma ShiftsOrdered(p: seq<nat>, i: nat, j: nat)
    requires IsPriority(p) && i < j < |p|
    ensures ShiftBits(p)[p[j]] >= 1
    ensures ShiftBits(p)[p[j]] + Width(p[j]) <= ShiftBits(p)[p[i]]
  {
    ShiftBitsStart(p, i);
    ShiftBitsStart(p, j);
    SumWidthsSplit(p, i + 1, j, |p|);
    SumWidthsSplit(p, j, j + 1, |p|);
  }

  /** With the built-in priority the shifts are foundry 1, stretch 3,
      style 5, weight 7, family 9, adstyle 11 and size 13. */
  lemma DefaultShifts()
    ensures IsPriority(DefaultPriority)
    ensures ShiftBits(DefaultPriority) == [1, 9, 7, 5, 3, 11, 0, 13, 0, 0]
  {
    var p := DefaultPriority;
    var a: seq<nat> := [0, 0, 0, 0, 0, 0, 0, 0, 0, 0];
    assert ShiftLoop(p, 6, 1, a) == ShiftLoop(p, 5, 3, a[Foundry := 1]);
    var a1 := a[Foundry := 1];
    assert ShiftLoop(p, 5, 3, a1) == ShiftLoop(p, 4, 5, a1[Stretch := 3]);
    var a2 := a1[Stretch := 3];
    assert ShiftLoop(p, 4, 5, a2) == ShiftLoop(p, 3, 7, a2[Style := 5]);
    var a3 := a2[Style := 5];
    assert ShiftLoop(p, 3, 7, a3) == ShiftLoop(p, 2, 9, a3[Weight := 7]);
    var a4 := a3[Weight := 7];
    assert ShiftLoop(p, 2, 9, a4) == ShiftLoop(p, 1, 11, a4[Family := 9]);
    var a5 := a4[Family := 9];
    assert ShiftLoop(p, 1, 11, a5) == ShiftLoop(p, 0, 13, a5[Adstyle := 11]);
    var a6 := a5[Adstyle := 11];
    assert ShiftLoop(p, 0, 13, a6) == ShiftLoop(p, -1, 29, a6[Size := 13]);
  }

  /** The configuration `mfont__init` leaves behind. */
  function InitScoreConfig(): (c: ScoreConfig)
    ensures ConfigShape(c) && c.shifts == ShiftBits(c.priority)
    ensures c.priority == DefaultPriority
  {
    ScoreConfig(DefaultPriority, ShiftBits(DefaultPriority))
  }

  function Abs(x: int): nat { if x < 0 then -x else x }

  function Min3(v: nat): nat { if v > 3 then 3 else v }

  /** The difference on one axis: `|font - request|`, or 0 when the font
      leaves the axis unspecified. */
  function Delta(font: MFont, request: MFont, prop: nat): nat
    requires prop < NumProps
  {
    if font[prop] != 0 then Abs(font[prop] - request[prop]) else 0
  }

  /** The score rejects the font on `prop`: the request cares about the
      axis and the font contradicts the spec there. */
  predicate Conflict(font: MFont, spec: MFont, request: MFont, prop: nat)
    requires prop < NumProps
  {
    request[prop] != 0 && spec[prop] != 0 && font[prop] != 0 && font[prop] != spec[prop]
  }

  /** Penalty bit for a size mismatch when the size may not deviate. */
  const LimitedBit: nat := 0x400000

  /** What one axis ORs into the score. */
  function Contribution(font: MFont, request: MFont, limited: bool, prop: nat, shifts: seq<nat>): nat
    requires prop < NumProps && |shifts| == NumProps
  {
    var val := Delta(font, request, prop);
    if prop == Size then
      if font[ResY] == 0 then 1
      else BitOr(Shl(val, shifts[Size]), if limited && val > 0 then LimitedBit else 0)
    else Shl(Min3(val), shifts[prop])
  }

  /** The loop of `mfont__score` from priority index `i` down to 0. */
  function ScoreLoop(font: MFont, spec: MFont, request: MFont, limited: bool,
                     c: ScoreConfig, i: int, acc: nat): (r: int)
    requires ConfigShape(c) && -1 <= i < PrioritySize
    ensures r == -1 <==> exists k :: 0 <= k <= i && Conflict(font, spec, request, c.priority[k])
    ensures r != -1 ==> r >= 0
    decreases i + 1
  {
    if i < 0 then acc
    else
      var prop := c.priority[i];
      if request[prop] != 0 then
        if Conflict(font, spec, request, prop) then -1
        else ScoreLoop(font, spec, request, limited, c, i - 1,
                       BitOr(acc, Contribution(font, request, limited, prop, c.shifts)))
      else ScoreLoop(font, spec, request, limited, c, i - 1, acc)
  }

  /** `mfont__score`: -1 exactly when the font contradicts the spec on an
      axis the request cares about, otherwise a non-negative score (lower
      is closer). */
  function Score(font: MFont, spec: MFont, request: MFont, limited: bool, c: ScoreConfig): (r: int)
    requires ConfigShape(c)
    ensures r == -1 <==> exists prop: nat :: IsScoredAxis(prop) && prop < NumProps
                                        && Conflict(font, spec, request, prop)
    ensures r != -1 ==> r >= 0
  {
    var r := ScoreLoop(font, spec, request, limited, c, PrioritySize - 1, 0);
    assert forall prop: nat :: IsScoredAxis(prop) ==> prop in c.priority by {
      PriorityCoversAxes(c.priority);
    }
    r
  }

  lemma PriorityCoversAxes(p: seq<nat>)
    requires IsPriority(p)
    ensures forall prop: nat :: IsScoredAxis(prop) ==> prop in p
  {
    var s := set i | 0 <= i < |p| :: p[i];
    assert s <= {Size, Adstyle, Family, Weight, Style, Stretch, Foundry};
    assert |s| == PrioritySize by {
      DistinctImage(p);
    }
    SubsetFull(s);
  }

  lemma DistinctImage(p: seq<nat>)
    requires forall i, j :: 0 <= i < j < |p| ==> p[i] != p[j]
    ensures |set i | 0 <= i < |p| :: p[i]| == |p|
  {
    if |p| > 0 {
      var q := p[..|p| - 1];
      DistinctImage(q);
      var sq := set i | 0 <= i < |q| :: q[i];
      var sp := set i | 0 <= i < |p| :: p[i];
      assert sp == sq + {p[|p| - 1]};
      assert p[|p| - 1] !in sq;
    }
  }

  lemma SubsetFull(s: set<nat>)
    requires s <= {Size, Adstyle, Family, Weight, Style, Stretch, Foundry}
    requires |s| == PrioritySize
    ensures s == {Size, Adstyle, Family, Weight, Style, Stretch, Foundry}
  {
    var all: set<nat> := {Size, Adstyle, Family, Weight, Style, Stretch, Foundry};
    assert |all| == PrioritySize;
    if s != all {
      var x :| x in all && x !in s;
      assert s <= all - {x};
      assert |all - {x}| == PrioritySize - 1;
      SubsetCard(s, all - {x});
      assert false;
    }
  }

  lemma SubsetCard(a: set<nat>, b: set<nat>)
    requires a <= b
    ensures |a| <= |b|
    decreases |a|
  {
    if a != {} {
      var x :| x in a;
      SubsetCard(a - {x}, b - {x});
    }
  }

  /** What an axis adds to the score when its fields do not overlap: the
      reference the bitwise score is measured against. */
  function Term(font: MFont, request: MFont, limited: bool, prop: nat, shifts: seq<nat>): nat
    requires prop < NumProps && |shifts| == NumProps
  {
    if request[prop] == 0 then 0
    else if prop == Size then
      var val := Delta(font, request, Size);
      if font[ResY] == 0 then 1
      else Shl(val, shifts[Size]) + (if limited && val > 0 then LimitedBit else 0)
    else Shl(Min3(Delta(font, request, prop)), shifts[prop])
  }

  /** The score as a plain sum of per-axis terms. */
  function ScoreSum(font: MFont, request: MFont, limited: bool, shifts: seq<nat>): nat
    requires |shifts| == NumProps
  {
    Term(font, request, limited, Foundry, shifts) + Term(font, request, limited, Stretch, shifts)
    + Term(font, request, limited, Style, shifts) + Term(font, request, limited, Weight, shifts)
    + Term(font, request, limited, Family, shifts) + Term(font, request, limited, Adstyle, shifts)
    + Term(font, request, limited, Size, shifts)
  }

  lemma Min3Bound(v: nat)
    ensures Min3(v) < Pow2(2)
  {
  }

  /** One symbolic axis of the default order: ORing its term into an
      accumulator below its field adds the term and keeps the accumulator
      below the next field. */
  lemma {:induction false} StepSymbolic(acc: nat, font: MFont, request: MFont, limited: bool,
                                        prop: nat, shifts: seq<nat>)
    requires prop < NumProps && prop != Size && |shifts| == NumProps
    requires acc < Pow2(shifts[prop])
    ensures var t := Term(font, request, limited, prop, shifts);
            (request[prop] != 0 ==> BitOr(acc, Contribution(font, request, limited, prop, shifts)) == acc + t)
            && acc + t < Pow2(shifts[prop] + 2)
  {
    var m := Min3(Delta(font, request, prop));
    Min3Bound(Delta(font, request, prop));
    BitOrDisjoint(acc, m, shifts[prop]);
    FieldBound(acc, m, shifts[prop], 2);
    FieldBound(acc, 0, shifts[prop], 2);
  }

  lemma {:induction false} ShlAdd(a: nat, b: nat, k: nat)
    ensures Shl(a + b, k) == Shl(a, k) + Shl(b, k)
    decreases k
  {
    if k > 0 {
      ShlAdd(a, b, k - 1);
    }
  }

  lemma {:induction false} ShlPow2(j: nat, k: nat)
    ensures Shl(Pow2(j), k) == Pow2(j + k)
    decreases k
  {
    if k > 0 {
      ShlPow2(j, k - 1);
    }
  }

  lemma {:induction false} ShlEven(a: nat, k: nat)
    requires k >= 1
    ensures Shl(a, k) % 2 == 0
  {
    var h := Shl(a, k - 1);
    assert Shl(a, k) == 2 * h;
    DoubleEven(h);
  }

  /** A scalable font ORs only the flag bit 0 into an even accumulator. */
  lemma {:induction false} StepScalable(acc: nat)
    requires acc % 2 == 0
    ensures BitOr(acc, 1) == acc + 1
  {
    BitOrComm(acc, 1);
    assert acc == Shl(acc / 2, 1);
    BitOrDisjoint(1, acc / 2, 1);
  }

  /** A bitmap font's size field under shift 13: with a difference below
      512 the penalty bit 22 does not collide with the difference. */
  lemma {:induction false} StepBitmap(acc: nat, val: nat, limited: bool)
    requires acc < Pow2(13) && val < 512
    ensures var bit: nat := if limited && val > 0 then LimitedBit else 0;
            BitOr(acc, BitOr(Shl(val, 13), bit)) == acc + (Shl(val, 13) + bit)
  {
    var on := limited && val > 0;
    SizeFieldOr(val, on);
    BitOrDisjoint(acc, val + (if on then 512 else 0), 13);
  }

  /** The size difference and the limited-size flag OR together into one
      field starting at bit 13. */
  lemma SizeFieldOr(val: nat, on: bool)
    requires val < 512
    ensures var bit: nat := if on then LimitedBit else 0;
            var hi: nat := if on then 512 else 0;
            && BitOr(Shl(val, 13), bit) == Shl(val + hi, 13)
            && Shl(val + hi, 13) == Shl(val, 13) + bit
  {
    Pow2Consts();
    if on {
      FieldBound(0, val, 13, 9);
      ShlPow2(0, 22);
      ShlPow2(9, 13);
      BitOrDisjoint(Shl(val, 13), 1, 22);
      ShlAdd(val, 512, 13);
    }
  }

  lemma Pow2Consts()
    ensures Pow2(22) == LimitedBit && Pow2(9) == 512 && Pow2(0) == 1
  {
    assert Pow2(9) == 512;
    assert Pow2(16) == 0x10000;
  }

  /** The size axis under the default shift 13 ORs in as a sum. */
  lemma {:induction false} StepSize(acc: nat, font: MFont, request: MFont, limited: bool, shifts: seq<nat>)
    requires |shifts| == NumProps && shifts[Size] == 13
    requires acc < Pow2(13) && acc % 2 == 0
    requires Delta(font, request, Size) < 512
    ensures request[Size] != 0 ==>
              BitOr(acc, Contribution(font, request, limited, Size, shifts))
              == acc + Term(font, request, limited, Size, shifts)
  {
    if font[ResY] == 0 {
      StepScalable(acc);
    } else {
      StepBitmap(acc, Delta(font, request, Size), limited);
    }
  }

  /** One iteration of the score loop on an axis without conflict. */
  lemma ScoreStep(font: MFont, spec: MFont, request: MFont, limited: bool,
                  c: ScoreConfig, i: nat, acc: nat, next: nat)
    requires ConfigShape(c) && i < PrioritySize
    requires !Conflict(font, spec, request, c.priority[i])
    requires request[c.priority[i]] != 0 ==>
               next == BitOr(acc, Contribution(font, request, limited, c.priority[i], c.shifts))
    requires request[c.priority[i]] == 0 ==> next == acc
    ensures ScoreLoop(font, spec, request, limited, c, i, acc)
            == ScoreLoop(font, spec, request, limited, c, i - 1, next)
  {
  }

  /** The built-in configuration, spelled out. */
  lemma DefaultConfig()
    ensures InitScoreConfig() == ScoreConfig([Size, Adstyle, Family, Weight, Style, Stretch, Foundry],
                                             [1, 9, 7, 5, 3, 11, 0, 13, 0, 0])
  {
    DefaultShifts();
  }

  /** The facts about the built-in configuration the score proofs use. */
  predicate DefaultLayout(c: ScoreConfig)
    requires ConfigShape(c)
  {
    && c.priority[0] == Size && c.priority[1] == Adstyle && c.priority[2] == Family
    && c.priority[3] == Weight && c.priority[4] == Style && c.priority[5] == Stretch
    && c.priority[6] == Foundry
    && c.shifts[Foundry] == 1 && c.shifts[Stretch] == 3 && c.shifts[Style] == 5
    && c.shifts[Weight] == 7 && c.shifts[Family] == 9 && c.shifts[Adstyle] == 11
    && c.shifts[Size] == 13
  }

  /** One symbolic axis of the score loop: when the accumulator lies below
      the axis's field, ORing adds the term and the accumulator stays below
      the end of the field. */
  lemma SymbolicStep(font: MFont, spec: MFont, request: MFont, limited: bool,
                     c: ScoreConfig, i: nat, acc: nat) returns (next: nat)
    requires ConfigShape(c) && i < PrioritySize && c.priority[i] != Size
    requires !Conflict(font, spec, request, c.priority[i])
    requires acc < Pow2(c.shifts[c.priority[i]])
    ensures next == acc + Term(font, request, limited, c.priority[i], c.shifts)
    ensures next < Pow2(c.shifts[c.priority[i]] + 2)
    ensures ScoreLoop(font, spec, request, limited, c, i, acc)
            == ScoreLoop(font, spec, request, limited, c, i - 1, next)
  {
    next := acc + Term(font, request, limited, c.priority[i], c.shifts);
    StepSymbolic(acc, font, request, limited, c.priority[i], c.shifts);
    ScoreStep(font, spec, request, limited, c, i, acc, next);
  }

  /** The six symbolic axes of the built-in order, lowest field first,
      add up below bit 13 and leave an even accumulator. */
  lemma DefaultSymbolicSteps(font: MFont, spec: MFont, request: MFont, limited: bool, c: ScoreConfig)
    returns (a6: nat)
    requires ConfigShape(c) && DefaultLayout(c)
    requires forall k :: 0 <= k < PrioritySize ==> !Conflict(font, spec, request, c.priority[k])
    ensures a6 == Term(font, request, limited, Foundry, c.shifts) + Term(font, request, limited, Stretch, c.shifts)
                  + Term(font, request, limited, Style, c.shifts) + Term(font, request, limited, Weight, c.shifts)
                  + Term(font, request, limited, Family, c.shifts) + Term(font, request, limited, Adstyle, c.shifts)
    ensures a6 < Pow2(13) && a6 % 2 == 0
    ensures ScoreLoop(font, spec, request, limited, c, 6, 0)
            == ScoreLoop(font, spec, request, limited, c, 0, a6)
  {
    var sh := c.shifts;
    var a1 := SymbolicStep(font, spec, request, limited, c, 6, 0);
    var a2 := SymbolicStep(font, spec, request, limited, c, 5, a1);
    var a3 := SymbolicStep(font, spec, request, limited, c, 4, a2);
    var a4 := SymbolicStep(font, spec, request, limited, c, 3, a3);
    var a5 := SymbolicStep(font, spec, request, limited, c, 2, a4);
    a6 := SymbolicStep(font, spec, request, limited, c, 1, a5);
    var e1 := TermHalf(font, request, limited, Foundry, sh);
    var e2 := TermHalf(font, request, limited, Stretch, sh);
    var e3 := TermHalf(font, request, limited, Style, sh);
    var e4 := TermHalf(font, request, limited, Weight, sh);
    var e5 := TermHalf(font, request, limited, Family, sh);
    var e6 := TermHalf(font, request, limited, Adstyle, sh);
    var h := e1 + e2 + e3 + e4 + e5 + e6;
    assert a6 == 2 * h;
    DoubleEven(h);
  }

  lemma DoubleEven(h: nat)
    ensures (2 * h) % 2 == 0
  {
  }

  /** A symbolic axis with a shift of at least 1 adds an even term; the
      result is half of it. */
  lemma TermHalf(font: MFont, request: MFont, limited: bool, prop: nat, shifts: seq<nat>) returns (h: nat)
    requires prop < NumProps && prop != Size && |shifts| == NumProps && shifts[prop] >= 1
    ensures Term(font, request, limited, prop, shifts) == 2 * h
  {
    if request[prop] == 0 {
      h := 0;
    } else {
      h := Shl(Min3(Delta(font, request, prop)), shifts[prop] - 1);
    }
  }

  /** With the built-in priority and shifts, and a size difference below
      512, the bitwise score is the plain sum of the per-axis terms: the
      fields never overlap. */
  lemma DefaultScoreIsSum(font: MFont, spec: MFont, request: MFont, limited: bool)
    requires Delta(font, request, Size) < 512
    requires Score(font, spec, request, limited, InitScoreConfig()) != -1
    ensures Score(font, spec, request, limited, InitScoreConfig())
            == ScoreSum(font, request, limited, InitScoreConfig().shifts)
  {
    var c := InitScoreConfig();
    DefaultConfig();
    var sh := c.shifts;
    assert DefaultLayout(c);
    assert forall k :: 0 <= k < PrioritySize ==> !Conflict(font, spec, request, c.priority[k]);
    var a6 := DefaultSymbolicSteps(font, spec, request, limited, c);
    StepSize(a6, font, request, limited, sh);
    var a7 := a6 + Term(font, request, limited, Size, sh);
    ScoreStep(font, spec, request, limited, c, 0, a6, a7);
  }

  /** A term depends only on its own axis (and, for the size, on the
      resolution). */
  lemma TermsAgree(f1: MFont, f2: MFont, request: MFont, limited: bool, prop: nat, shifts: seq<nat>)
    requires prop < NumProps && |shifts| == NumProps
    requires f1[prop] == f2[prop] && f1[ResY] == f2[ResY]
    ensures Term(f1, request, limited, prop, shifts) == Term(f2, request, limited, prop, shifts)
  {
  }

  /** A term never grows when its axis moves closer to the request. */
  lemma TermMonotone(f1: MFont, f2: MFont, request: MFont, limited: bool, prop: nat, shifts: seq<nat>)
    requires prop < NumProps && |shifts| == NumProps && f1[ResY] == f2[ResY]
    requires Delta(f1, request, prop) <= Delta(f2, request, prop)
    ensures Term(f1, request, limited, prop, shifts) <= Term(f2, request, limited, prop, shifts)
  {
    ShlMonotone(Min3(Delta(f1, request, prop)), Min3(Delta(f2, request, prop)), shifts[prop]);
    ShlMonotone(Delta(f1, request, prop), Delta(f2, request, prop), shifts[prop]);
  }

  /** Score monotonicity under the built-in configuration: moving one
      axis of the font closer to the request never makes the score worse. */
  lemma DefaultScoreMonotone(f1: MFont, f2: MFont, spec: MFont, request: MFont, limited: bool, prop: nat)
    requires prop < NumProps && IsScoredAxis(prop)
    requires forall k :: 0 <= k < NumProps && k != prop ==> f1[k] == f2[k]
    requires Delta(f1, request, prop) <= Delta(f2, request, prop)
    requires Delta(f1, request, Size) < 512 && Delta(f2, request, Size) < 512
    requires Score(f1, spec, request, limited, InitScoreConfig()) != -1
    requires Score(f2, spec, request, limited, InitScoreConfig()) != -1
    ensures Score(f1, spec, request, limited, InitScoreConfig())
            <= Score(f2, spec, request, limited, InitScoreConfig())
  {
    DefaultScoreIsSum(f1, spec, request, limited);
    DefaultScoreIsSum(f2, spec, request, limited);
    var sh := InitScoreConfig().shifts;
    assert f1[ResY] == f2[ResY];
    forall q | q in [Foundry, Family, Weight, Style, Stretch, Adstyle, Size]
      ensures Term(f1, request, limited, q, sh) <= Term(f2, request, limited, q, sh)
    {
      if q == prop {
        TermMonotone(f1, f2, request, limited, q, sh);
      } else {
        TermsAgree(f1, f2, request, limited, q, sh);
      }
    }
  }

  lemma {:induction false} ShlZero(k: nat)
    ensures Shl(0, k) == 0
    decreases k
  {
    if k > 0 {
      ShlZero(k - 1);
    }
  }

  lemma {:induction false} ShlMonotone(a: nat, b: nat, k: nat)
    requires a <= b
    ensures Shl(a, k) <= Shl(b, k)
    decreases k
  {
    if k > 0 {
      ShlMonotone(a, b, k - 1);
    }
  }

  /** The key symbol naming an axis in the selection-priority API. */
  function KeyOf(prop: nat): Symbol
  {
    if prop == Size then "size"
    else if prop == Adstyle then "adstyle"
    else if prop == Family then "family"
    else if prop == Weight then "weight"
    else if prop == Style then "style"
    else if prop == Stretch then "stretch"
    else "foundry"
  }

  /** The axis a key symbol names, if it names one. */
  function PropOfKey(key: Symbol): (r: Option<nat>)
    ensures r.Some? ==> IsScoredAxis(r.value) && KeyOf(r.value) == key
    ensures forall prop: nat :: IsScoredAxis(prop) && KeyOf(prop) == key ==> r == Some(prop)
  {
    if key == "size" then Some(Size)
    else if key == "adstyle" then Some(Adstyle)
    else if key == "family" then Some(Family)
    else if key == "weight" then Some(Weight)
    else if key == "style" then Some(Style)
    else if key == "stretch" then Some(Stretch)
    else if key == "foundry" then Some(Foundry)
    else None
  }

  /** `mfont_selection_priority`: the current priority as key symbols. */
  function SelectionPriority(c: ScoreConfig): (keys: seq<Symbol>)
    ensures |keys| == |c.priority|
    ensures forall i :: 0 <= i < |keys| && IsScoredAxis(c.priority[i]) ==> PropOfKey(keys[i]) == Some(c.priority[i])
  {
    seq(|c.priority|, i requires 0 <= i < |c.priority| => KeyOf(c.priority[i]))
  }

  /** Keys accepted by `mfont_set_selection_priority`: each names an axis
      and no axis is named twice. */
  predicate ValidKeys(keys: seq<Symbol>)
  {
    && (forall i :: 0 <= i < |keys| ==> PropOfKey(keys[i]).Some?)
    && (forall i, j :: 0 <= i < j < |keys| ==> keys[i] != keys[j])
  }

  /** The key validation loop: the axes of `keys[0 .. i-1]`, or None at
      the first unknown or repeated key. */
  function ParseKeys(keys: seq<Symbol>, i: nat): (r: Option<seq<nat>>)
    requires i <= |keys|
    ensures r.Some? <==> ValidKeys(keys[..i])
    ensures r.Some? ==> |r.value| == i && forall k :: 0 <= k < i ==> Some(r.value[k]) == PropOfKey(keys[k])
  {
    if i == 0 then Some([])
    else
      match ParseKeys(keys, i - 1)
      case None =>
        assert !ValidKeys(keys[..i - 1]);
        assert !ValidKeys(keys[..i]) by {
          assert keys[..i][..i - 1] == keys[..i - 1];
        }
        None
      case Some(prev) =>
        match PropOfKey(keys[i - 1])
        case None => None
        case Some(prop) =>
          if prop in prev then
            var j :| 0 <= j < |prev| && prev[j] == prop;
            assert keys[j] == KeyOf(prop) == keys[i - 1];
            assert keys[..i][j] == keys[..i][i - 1];
            None
          else
            assert forall j :: 0 <= j < i - 1 ==> keys[j] != keys[i - 1] by {
              forall j | 0 <= j < i - 1 ensures keys[j] != keys[i - 1] {
                assert PropOfKey(keys[j]) == Some(prev[j]);
              }
            }
            assert keys[..i] == keys[..i - 1] + [keys[i - 1]];
            Some(prev + [prop])
  }

  /** The axes of a valid key list form a priority list. */
  lemma ParsedIsPriority(keys: seq<Symbol>)
    requires |keys| == PrioritySize && ValidKeys(keys)
    ensures ParseKeys(keys, PrioritySize).Some?
    ensures IsPriority(ParseKeys(keys, PrioritySize).value)
  {
    assert keys[..PrioritySize] == keys;
    var p := ParseKeys(keys, PrioritySize).value;
    forall i, j | 0 <= i < j < |p| ensures p[i] != p[j] {
      assert KeyOf(p[i]) == keys[i] && KeyOf(p[j]) == keys[j];
    }
  }

  /** `mfont_set_selection_priority` as written: it validates seven keys
      and replaces the priority list, but leaves the shifts that
      `mfont__init` computed from the old list untouched. */
  function SetSelectionPriorityAsWritten(c: ScoreConfig, keys: seq<Symbol>): (r: (ScoreConfig, int))
    requires ConfigShape(c) && |keys| == PrioritySize
    ensures r.1 == 0 || r.1 == -1
    ensures r.1 == -1 <==> !ValidKeys(keys)
    ensures r.1 == -1 ==> r.0 == c
    ensures r.1 == 0 ==> ConfigShape(r.0) && SelectionPriority(r.0) == keys
    ensures r.0.shifts == c.shifts
  {
    assert keys[..PrioritySize] == keys;
    match ParseKeys(keys, PrioritySize)
    case None => (c, -1)
    case Some(p) =>
      ParsedIsPriority(keys);
      var r := c.(priority := p);
      assert forall i :: 0 <= i < PrioritySize ==> SelectionPriority(r)[i] == keys[i];
      (r, 0)
  }

  /** `mfont_set_selection_priority` with the shifts recomputed from the
      new list, so that the score follows the priority it reports. */
  function SetSelectionPriority(c: ScoreConfig, keys: seq<Symbol>): (r: (ScoreConfig, int))
    requires ConfigShape(c) && |keys| == PrioritySize
    ensures r.1 == 0 || r.1 == -1
    ensures r.1 == -1 <==> !ValidKeys(keys)
    ensures r.1 == -1 ==> r.0 == c
    ensures r.1 == 0 ==> ConfigShape(r.0) && SelectionPriority(r.0) == keys
    ensures r.1 == 0 ==> r.0.shifts == ShiftBits(r.0.priority)
  {
    var (w, res) := SetSelectionPriorityAsWritten(c, keys);
    if res == 0 then (w.(shifts := ShiftBits(w.priority)), 0) else (w, res)
  }

  /** Fonts that differ from the request on foundry only, or on family
      only, by one id each. */
  const OffFoundry: MFont := [2, 1, 0, 0, 0, 0, 0, 0, 0, 0]
  const OffFamily: MFont := [1, 2, 0, 0, 0, 0, 0, 0, 0, 0]
  const FoundryFamilyRequest: MFont := [1, 1, 0, 0, 0, 0, 0, 0, 0, 0]

  /** Foundry made the highest priority. */
  const FoundryFirstKeys: seq<Symbol> := ["foundry", "size", "adstyle", "family", "weight", "style", "stretch"]

  /** Axes the request leaves unspecified do not change the score. */
  lemma {:induction false} ScoreSkip(font: MFont, spec: MFont, request: MFont, limited: bool,
                                     c: ScoreConfig, i: int, j: int, acc: nat)
    requires ConfigShape(c) && -1 <= j <= i < PrioritySize
    requires forall k :: j < k <= i ==> request[c.priority[k]] == 0
    ensures ScoreLoop(font, spec, request, limited, c, i, acc)
            == ScoreLoop(font, spec, request, limited, c, j, acc)
    decreases i
  {
    if j < i {
      ScoreSkip(font, spec, request, limited, c, i - 1, j, acc);
    }
  }

  /** Scores of the two probe fonts under a configuration whose priority
      lists foundry first and family fourth. */
  lemma ProbeScores(c: ScoreConfig)
    requires ConfigShape(c)
    requires c.priority == [Foundry, Size, Adstyle, Family, Weight, Style, Stretch]
    ensures Score(OffFoundry, ZeroFont, FoundryFamilyRequest, false, c) == Shl(1, c.shifts[Foundry])
    ensures Score(OffFamily, ZeroFont, FoundryFamilyRequest, false, c) == Shl(1, c.shifts[Family])
  {
    var req := FoundryFamilyRequest;
    ShlZero(c.shifts[Family]);
    ShlZero(c.shifts[Foundry]);
    ScoreSkip(OffFoundry, ZeroFont, req, false, c, 6, 3, 0);
    ScoreSkip(OffFoundry, ZeroFont, req, false, c, 2, 0, 0);
    assert Contribution(OffFoundry, req, false, Family, c.shifts) == 0;
    assert ScoreLoop(OffFoundry, ZeroFont, req, false, c, 3, 0)
           == ScoreLoop(OffFoundry, ZeroFont, req, false, c, 2, 0);
    assert ScoreLoop(OffFoundry, ZeroFont, req, false, c, 0, 0)
           == ScoreLoop(OffFoundry, ZeroFont, req, false, c, -1, Shl(1, c.shifts[Foundry]));
    ScoreSkip(OffFamily, ZeroFont, req, false, c, 6, 3, 0);
    var fam := Shl(1, c.shifts[Family]);
    ScoreSkip(OffFamily, ZeroFont, req, false, c, 2, 0, fam);
    assert ScoreLoop(OffFamily, ZeroFont, req, false, c, 3, 0)
           == ScoreLoop(OffFamily, ZeroFont, req, false, c, 2, fam);
    assert Contribution(OffFamily, req, false, Foundry, c.shifts) == 0;
    assert ScoreLoop(OffFamily, ZeroFont, req, false, c, 0, fam)
           == ScoreLoop(OffFamily, ZeroFont, req, false, c, -1, fam);
  }

  lemma FoundryFirstParsed()
    ensures ValidKeys(FoundryFirstKeys)
    ensures ParseKeys(FoundryFirstKeys, PrioritySize)
            == Some([Foundry, Size, Adstyle, Family, Weight, Style, Stretch])
  {
    assert ValidKeys(FoundryFirstKeys);
    ParsedIsPriority(FoundryFirstKeys);
    var p := ParseKeys(FoundryFirstKeys, PrioritySize).value;
    assert Some(p[0]) == PropOfKey("foundry") == Some(Foundry);
    assert Some(p[1]) == PropOfKey("size") == Some(Size);
    assert Some(p[2]) == PropOfKey("adstyle") == Some(Adstyle);
    assert Some(p[3]) == PropOfKey("family") == Some(Family);
    assert Some(p[4]) == PropOfKey("weight") == Some(Weight);
    assert Some(p[5]) == PropOfKey("style") == Some(Style);
    assert Some(p[6]) == PropOfKey("stretch") == Some(Stretch);
    assert |p| == PrioritySize;
    assert p == [Foundry, Size, Adstyle, Family, Weight, Style, Stretch];
  }

  /** As written, making foundry the highest priority has no effect on
      scoring: the font that misses the foundry still scores better
      (lower) than the one that only misses the lower-priority family. */
  lemma PriorityIgnoredAsWritten()
    ensures var r := SetSelectionPriorityAsWritten(InitScoreConfig(), FoundryFirstKeys);
            && r.1 == 0
            && r.0.priority[0] == Foundry
            && Score(OffFoundry, ZeroFont, FoundryFamilyRequest, false, r.0) == 2
            && Score(OffFamily, ZeroFont, FoundryFamilyRequest, false, r.0) == 512
  {
    DefaultShifts();
    FoundryFirstParsed();
    assert FoundryFirstKeys[..PrioritySize] == FoundryFirstKeys;
    var r := SetSelectionPriorityAsWritten(InitScoreConfig(), FoundryFirstKeys);
    ProbeScores(r.0);
    ShlPow2(0, 1);
    ShlPow2(0, 9);
    assert Pow2(1) == 2 && Pow2(9) == 512 && Pow2(0) == 1;
  }

  /** Setting foundry first with the shifts recomputed gives foundry a
      field above family's. */
  lemma FoundryFirstConfig()
    ensures var r := SetSelectionPriority(InitScoreConfig(), FoundryFirstKeys);
            && r.1 == 0
            && r.0.priority == [Foundry, Size, Adstyle, Family, Weight, Style, Stretch]
            && r.0.shifts[Family] < r.0.shifts[Foundry]
  {
    FoundryFirstParsed();
    assert FoundryFirstKeys[..PrioritySize] == FoundryFirstKeys;
    var r := SetSelectionPriority(InitScoreConfig(), FoundryFirstKeys);
    ShiftsOrdered(r.0.priority, 0, 3);
  }

  /** With the shifts recomputed, the same change makes a foundry mismatch
      outweigh a family mismatch, as the reported priority says. */
  lemma PriorityHonoured()
    ensures var r := SetSelectionPriority(InitScoreConfig(), FoundryFirstKeys);
            && r.1 == 0
            && Score(OffFamily, ZeroFont, FoundryFamilyRequest, false, r.0)
               < Score(OffFoundry, ZeroFont, FoundryFamilyRequest, false, r.0)
  {
    FoundryFirstConfig();
    var r := SetSelectionPriority(InitScoreConfig(), FoundryFirstKeys);
    ProbeOrder(r.0);
  }

  /** Under any configuration listing foundry first whose foundry field
      lies above the family field, the foundry mismatch scores worse. */
  lemma ProbeOrder(c: ScoreConfig)
    requires ConfigShape(c)
    requires c.priority == [Foundry, Size, Adstyle, Family, Weight, Style, Stretch]
    requires c.shifts[Family] < c.shifts[Foundry]
    ensures Score(OffFamily, ZeroFont, FoundryFamilyRequest, false, c)
            < Score(OffFoundry, ZeroFont, FoundryFamilyRequest, false, c)
  {
    ProbeScores(c);
    ShlPow2(0, c.shifts[Family]);
    ShlPow2(0, c.shifts[Foundry]);
    Pow2Strict(c.shifts[Family], c.shifts[Foundry]);
  }

  lemma Pow2Strict(j: nat, k: nat)
    requires j < k
    ensures Pow2(j) < Pow2(k)
    decreases k
  {
    if j < k - 1 {
      Pow2Strict(j, k - 1);
    }
  }
}
