/** The count-up effect of the statistics cards
    (src/components/StatsConstellation.tsx): a card starts by showing "00";
    on each of the first nine ticks every run of digits in its target value
    is replaced by the smaller of its number and the tick count, zero-padded
    to the run's width; from the tenth tick on the target value itself is
    shown and the ticking stops. */
module StatsConstellation {
  import opened Sequences

  /** The characters the regular expression `\d` matches. */
  predicate IsDigit(c: char)
  {
    '0' <= c <= '9'
  }

  predicate AllDigits(s: string)
  {
    forall i :: 0 <= i < |s| ==> IsDigit(s[i])
  }

  function Pow10(n: nat): (p: nat)
    ensures p >= 1
  {
    if n == 0 then 1 else 10 * Pow10(n - 1)
  }

  /** The number a string of decimal digits denotes (`parseInt(m)` for a
      digit run `m`); it is below 10 to the power of the run's width. */
  function Value(m: string): (v: nat)
    requires AllDigits(m)
    ensures v < Pow10(|m|)
  {
    if m == [] then 0
    else 10 * Value(m[..|m| - 1]) + (m[|m| - 1] as int - '0' as int)
  }

  /** `n.toString()`: the shortest decimal numeral of `n`. */
  function NatToString(n: nat): (s: string)
    ensures |s| >= 1 && AllDigits(s) && Value(s) == n
    ensures |s| > 1 ==> s[0] != '0'
  {
    var d := ('0' as int + n % 10) as char;
    if n < 10 then [d]
    else
      var s := NatToString(n / 10) + [d];
      assert s[..|s| - 1] == NatToString(n / 10);
      s
  }

  /** A number below 10^k has a numeral of at most k digits. */
  lemma {:induction false} NatToStringFits(n: nat, k: nat)
    requires k >= 1 && n < Pow10(k)
    ensures |NatToString(n)| <= k
  {
    if n >= 10 {
      assert k >= 2;
      NatToStringFits(n / 10, k - 1);
    }
  }

  /** `k` zero digits. */
  function Zeros(k: nat): (z: string)
    ensures |z| == k && forall i :: 0 <= i < k ==> z[i] == '0'
  {
    seq(k, _ => '0')
  }

  /** `s.padStart(len, '0')`. */
  function PadStart(s: string, len: nat): (r: string)
    ensures |r| == if |s| >= len then |s| else len
    decreases len - |s|
  {
    if |s| >= len then s else PadStart(['0'] + s, len)
  }

  /** Padding puts zeros, and nothing else, in front. */
  lemma {:induction false} PadStartIsZeros(s: string, len: nat)
    ensures PadStart(s, len) == Zeros(|PadStart(s, len)| - |s|) + s
    decreases len - |s|
  {
    if |s| >= len {
      assert s == Zeros(0) + s;
    } else {
      PadStartIsZeros(['0'] + s, len);
      assert Zeros(len - |s| - 1) + (['0'] + s) == Zeros(len - |s|) + s;
    }
  }

  /** A string of zeros denotes 0. */
  lemma {:induction false} ValueOfZeros(k: nat)
    ensures AllDigits(Zeros(k)) && Value(Zeros(k)) == 0
  {
    if k > 0 {
      assert Zeros(k)[..k - 1] == Zeros(k - 1);
      ValueOfZeros(k - 1);
    }
  }

  /** Leading zeros do not change the number a digit string denotes. */
  lemma {:induction false} ValueLeadingZeros(k: nat, s: string)
    requires AllDigits(s)
    ensures AllDigits(Zeros(k) + s) && Value(Zeros(k) + s) == Value(s)
  {
    if s == [] {
      assert Zeros(k) + s == Zeros(k);
      ValueOfZeros(k);
    } else {
      var z := Zeros(k) + s;
      assert z[..|z| - 1] == Zeros(k) + s[..|s| - 1];
      ValueLeadingZeros(k, s[..|s| - 1]);
    }
  }

  /** Two digit strings of the same width that denote the same number are the
      same string, leading zeros included. */
  lemma {:induction false} ValueInjective(a: string, b: string)
    requires AllDigits(a) && AllDigits(b) && |a| == |b|
    requires Value(a) == Value(b)
    ensures a == b
  {
    if a != [] {
      var da := a[|a| - 1] as int - '0' as int;
      var db := b[|b| - 1] as int - '0' as int;
      DigitSplit(Value(a[..|a| - 1]), da);
      DigitSplit(Value(b[..|b| - 1]), db);
      ValueInjective(a[..|a| - 1], b[..|b| - 1]);
      DropLast(a);
      DropLast(b);
    }
  }

  /** The last decimal digit and the rest of `10 * x + d`. */
  lemma DigitSplit(x: nat, d: int)
    requires 0 <= d < 10
    ensures (10 * x + d) % 10 == d && (10 * x + d) / 10 == x
  {
  }

  function Min(a: int, b: int): int
  {
    if a <= b then a else b
  }

  /** The callback the count-up passes to `replace` at tick `t`: a digit run
      `m` becomes `Math.min(parseInt(m), t).toString().padStart(m.length, '0')`.
      (`replace` only ever passes digit runs; other strings are returned as
      they are.) */
  function ShowRun(m: string, t: nat): string
  {
    if AllDigits(m) then PadStart(NatToString(Min(Value(m), t)), |m|) else m
  }

  /** A run's replacement is a digit string of the run's own width denoting
      min(m, t). */
  lemma ShowRunFacts(m: string, t: nat)
    requires AllDigits(m) && m != []
    ensures |ShowRun(m, t)| == |m|
    ensures AllDigits(ShowRun(m, t)) && Value(ShowRun(m, t)) == Min(Value(m), t)
  {
    var n := NatToString(Min(Value(m), t));
    NatToStringFits(Min(Value(m), t), |m|);
    PadStartIsZeros(n, |m|);
    ValueLeadingZeros(|m| - |n|, n);
  }

  function Callback(t: nat): string -> string
  {
    m => ShowRun(m, t)
  }

  /** `f` turns every non-empty digit run into a digit string of the same
      width. */
  ghost predicate KeepsRunWidth(f: string -> string)
  {
    forall m :: AllDigits(m) && m != [] ==> |f(m)| == |m| && AllDigits(f(m))
  }

  lemma CallbackKeepsRunWidth(t: nat)
    ensures KeepsRunWidth(Callback(t))
  {
    forall m | AllDigits(m) && m != [] ensures |Callback(t)(m)| == |m| && AllDigits(Callback(t)(m)) {
      ShowRunFacts(m, t);
    }
  }

  /** The length of the run of digits `s` starts with. */
  function LeadingDigits(s: string): (k: nat)
    ensures k <= |s| && AllDigits(s[..k])
    ensures k == |s| || !IsDigit(s[k])
  {
    if s == [] || !IsDigit(s[0]) then 0
    else
      var k := LeadingDigits(s[1..]);
      assert s[..k + 1] == [s[0]] + s[1..][..k];
      k + 1
  }

  /** `value.replace(/\d+/g, f)`: every maximal run of digits is replaced by
      what `f` makes of it, every other character is copied. */
  function ReplaceRuns(value: string, f: string -> string): string
    decreases |value|
  {
    if value == [] then []
    else if IsDigit(value[0]) then
      var k := LeadingDigits(value);
      f(value[..k]) + ReplaceRuns(value[k..], f)
    else
      [value[0]] + ReplaceRuns(value[1..], f)
  }

  /** Where `replace` resumes after the first piece of a non-empty value:
      after its leading run of digits, or after its first character. */
  function FirstPiece(value: string): (d: nat)
    requires value != []
    ensures 0 < d <= |value|
  {
    if IsDigit(value[0]) then LeadingDigits(value) else 1
  }

  /** What the first piece is replaced by. */
  function FirstPieceReplaced(value: string, f: string -> string): string
    requires value != []
  {
    if IsDigit(value[0]) then f(value[..FirstPiece(value)]) else [value[0]]
  }

  lemma ReplaceRunsStep(value: string, f: string -> string)
    requires value != []
    ensures ReplaceRuns(value, f) == FirstPieceReplaced(value, f) + ReplaceRuns(value[FirstPiece(value)..], f)
  {
  }

  /** With a width-keeping callback, `replace` keeps the value's length. */
  lemma {:induction false} ReplaceRunsLength(value: string, f: string -> string)
    requires KeepsRunWidth(f)
    ensures |ReplaceRuns(value, f)| == |value|
    decreases |value|
  {
    if value != [] {
      ReplaceRunsStep(value, f);
      ReplaceRunsLength(value[FirstPiece(value)..], f);
    }
  }

  /** `r` has the shape of `value`: the same length, digits exactly where
      `value` has digits, and `value`'s other characters in place. */
  predicate SameShape(value: string, r: string)
  {
    && |r| == |value|
    && (forall i :: 0 <= i < |value| ==> (IsDigit(r[i]) <==> IsDigit(value[i])))
    && (forall i :: 0 <= i < |value| && !IsDigit(value[i]) ==> r[i] == value[i])
  }

  lemma SameShapeAppend(v1: string, r1: string, v2: string, r2: string)
    requires SameShape(v1, r1) && SameShape(v2, r2)
    ensures SameShape(v1 + v2, r1 + r2)
  {
    forall i | 0 <= i < |v1 + v2|
      ensures (IsDigit((r1 + r2)[i]) <==> IsDigit((v1 + v2)[i]))
      ensures !IsDigit((v1 + v2)[i]) ==> (r1 + r2)[i] == (v1 + v2)[i]
    {
      if i >= |v1| {
        assert (r1 + r2)[i] == r2[i - |v1|] && (v1 + v2)[i] == v2[i - |v1|];
      }
    }
  }

  /** The first piece is replaced by a piece of its own shape. */
  lemma FirstPieceShape(value: string, f: string -> string)
    requires value != [] && KeepsRunWidth(f)
    ensures SameShape(value[..FirstPiece(value)], FirstPieceReplaced(value, f))
  {
  }

  /** With a width-keeping callback, the result has digits exactly where the
      value has digits, and the value's other characters in place. */
  lemma {:induction false} ReplaceKeepsShape(value: string, f: string -> string)
    requires KeepsRunWidth(f)
    ensures SameShape(value, ReplaceRuns(value, f))
    decreases |value|
  {
    if value != [] {
      var d := FirstPiece(value);
      TakeDrop(value, d);
      ReplaceRunsStep(value, f);
      ReplaceKeepsShape(value[d..], f);
      FirstPieceShape(value, f);
      SameShapeAppend(value[..d], FirstPieceReplaced(value, f), value[d..], ReplaceRuns(value[d..], f));
    }
  }

  /** Text after a string does not lengthen its leading run of digits when
      that run stops inside the string or the text starts with a non-digit. */
  lemma {:induction false} LeadingDigitsAppend(a: string, b: string)
    requires LeadingDigits(a) < |a| || b == [] || !IsDigit(b[0])
    ensures LeadingDigits(a + b) == LeadingDigits(a)
  {
    if a == [] {
      assert a + b == b;
    } else if IsDigit(a[0]) {
      assert (a + b)[1..] == a[1..] + b;
      LeadingDigitsAppend(a[1..], b);
    }
  }

  /** Two strings meet at a piece boundary unless a digit ends the first and
      a digit starts the second. */
  predicate PieceBoundary(a: string, b: string)
  {
    a == [] || b == [] || !IsDigit(a[|a| - 1]) || !IsDigit(b[0])
  }

  /** `replace` works piece by piece: at a piece boundary the result for a
      concatenation is the concatenation of the results. */
  lemma {:induction false} ReplaceAppend(a: string, b: string, f: string -> string)
    requires PieceBoundary(a, b)
    ensures ReplaceRuns(a + b, f) == ReplaceRuns(a, f) + ReplaceRuns(b, f)
    decreases |a|
  {
    if a == [] {
      assert a + b == b;
    } else {
      var d := FirstPiece(a);
      if IsDigit(a[0]) {
        if d == |a| {
          assert a[..d][|a| - 1] == a[|a| - 1];
        }
        LeadingDigitsAppend(a, b);
      }
      AppendTakeDrop(a, b, d);
      assert (a + b)[0] == a[0];
      assert PieceBoundary(a[d..], b) by {
        if a[d..] != [] { assert a[d..][|a[d..]| - 1] == a[|a| - 1]; }
      }
      ReplaceAppend(a[d..], b, f);
      ReplaceRunsStep(a, f);
      ReplaceRunsStep(a + b, f);
      assert FirstPieceReplaced(a + b, f) == FirstPieceReplaced(a, f);
      AppendAssoc(FirstPieceReplaced(a, f), ReplaceRuns(a[d..], f), ReplaceRuns(b, f));
    }
  }

  /** A string of digits is its own leading run. */
  lemma {:induction false} AllDigitsLeading(m: string)
    requires AllDigits(m)
    ensures LeadingDigits(m) == |m|
  {
    if m != [] {
      assert AllDigits(m[1..]) by {
        forall k | 0 <= k < |m| - 1 ensures IsDigit(m[1..][k]) { assert m[1..][k] == m[k + 1]; }
      }
      AllDigitsLeading(m[1..]);
    }
  }

  /** A non-empty string of digits is one run, replaced as a whole. */
  lemma ReplaceOfRun(m: string, f: string -> string)
    requires AllDigits(m) && m != []
    ensures ReplaceRuns(m, f) == f(m)
  {
    AllDigitsLeading(m);
    assert m[..|m|] == m && m[|m|..] == [];
  }

  /** `value[i..j]` is a maximal run of digits of `value`. */
  predicate MaximalRun(value: string, i: int, j: int)
  {
    0 <= i < j <= |value| && AllDigits(value[i..j])
    && (i == 0 || !IsDigit(value[i - 1]))
    && (j == |value| || !IsDigit(value[j]))
  }


  /** A digit run with piece boundaries on both sides is replaced whole. */
  lemma RunBetween(pre: string, run: string, post: string, f: string -> string)
    requires AllDigits(run) && run != []
    requires PieceBoundary(pre, run + post) && PieceBoundary(run, post)
    ensures ReplaceRuns(pre + (run + post), f) == ReplaceRuns(pre, f) + (f(run) + ReplaceRuns(post, f))
  {
    ReplaceAppend(run, post, f);
    ReplaceAppend(pre, run + post, f);
    ReplaceOfRun(run, f);
  }

  /** Cut around a maximal run, a value falls into three parts that meet at
      piece boundaries. */
  lemma MaximalRunParts(value: string, i: int, j: int)
    requires MaximalRun(value, i, j)
    ensures AllDigits(value[i..j]) && value[i..j] != []
    ensures PieceBoundary(value[..i], value[i..j] + value[j..])
    ensures PieceBoundary(value[i..j], value[j..])
  {
    var pre, run, post := value[..i], value[i..j], value[j..];
    assert run[0] == value[i] && run[|run| - 1] == value[j - 1];
    assert post == [] || post[0] == value[j];
    assert pre == [] || pre[|pre| - 1] == value[i - 1];
    assert (run + post)[0] == run[0];
  }

  /** With a width-keeping callback, each maximal digit run `m` of the value
      is replaced, in place, by `f(m)`. */
  lemma RunReplace(value: string, i: int, j: int, f: string -> string)
    requires MaximalRun(value, i, j) && KeepsRunWidth(f)
    ensures |ReplaceRuns(value, f)| == |value|
    ensures ReplaceRuns(value, f)[i..j] == f(value[i..j])
  {
    ReplaceRunsLength(value, f);
    SplitAround(value, i, j);
    MaximalRunParts(value, i, j);
    RunBetween(value[..i], value[i..j], value[j..], f);
    ReplaceRunsLength(value[..i], f);
    MiddleSlice(ReplaceRuns(value[..i], f), f(value[i..j]), ReplaceRuns(value[j..], f));
  }

  /** The count-up text on ticks 1 to 9:
      `value.replace(/\d+/g, m => ShowRun(m, t))`. It has the value's
      length, digits exactly where the value has digits, the value's other
      characters (such as the '+') in place, and each maximal digit run
      replaced in place by its count-up numeral. */
  function RewriteRuns(value: string, t: nat): (r: string)
    ensures |r| == |value|
    ensures forall i :: 0 <= i < |value| ==> (IsDigit(r[i]) <==> IsDigit(value[i]))
    ensures forall i :: 0 <= i < |value| && !IsDigit(value[i]) ==> r[i] == value[i]
  {
    CallbackKeepsRunWidth(t);
    ReplaceKeepsShape(value, Callback(t));
    ReplaceRuns(value, Callback(t))
  }

  /** Each maximal digit run of the value is replaced, in place, by the run's
      count-up numeral. */
  lemma RunRewrite(value: string, i: int, j: int, t: nat)
    requires MaximalRun(value, i, j)
    ensures RewriteRuns(value, t)[i..j] == ShowRun(value[i..j], t)
  {
    CallbackKeepsRunWidth(t);
    RunReplace(value, i, j, Callback(t));
  }

  /** What the card shows after `t` ticks: "00" before the first tick, the
      rewritten value on ticks 1 to 9, the value itself from tick 10 on. */
  function Display(value: string, t: nat): (shown: string)
    ensures t == 0 ==> shown == "00"
    ensures t >= 10 ==> shown == value
    ensures t >= 1 ==> |shown| == |value|
    ensures t >= 1 ==> forall i :: 0 <= i < |value| && !IsDigit(value[i]) ==> shown[i] == value[i]
  {
    if t == 0 then "00"
    else if t >= 10 then value
    else RewriteRuns(value, t)
  }

  /** From the first tick on, a maximal run shows a digit string of its own
      width whose number is min(run, t) while counting and the run itself
      afterwards; so it never exceeds the target's number, nor t before
      tick 10. */
  lemma DisplayedRun(value: string, i: int, j: int, t: nat)
    requires MaximalRun(value, i, j) && t >= 1
    ensures AllDigits(Display(value, t)[i..j])
    ensures t < 10 ==> Value(Display(value, t)[i..j]) == Min(Value(value[i..j]), t)
    ensures t >= 10 ==> Display(value, t)[i..j] == value[i..j]
    ensures Value(Display(value, t)[i..j]) <= Value(value[i..j])
  {
    if t < 10 {
      RunRewrite(value, i, j, t);
      ShowRunFacts(value[i..j], t);
    }
  }

  /** A run whose number is at most t already shows its final digits,
      leading zeros included. */
  lemma SettledRunShowsTarget(value: string, i: int, j: int, t: nat)
    requires MaximalRun(value, i, j) && t >= 1
    requires Value(value[i..j]) <= t
    ensures Display(value, t)[i..j] == value[i..j]
  {
    DisplayedRun(value, i, j, t);
    if t < 10 {
      ValueInjective(Display(value, t)[i..j], value[i..j]);
    }
  }

  /** The number a maximal run shows after tick `t` (from the first tick
      on): at most the run's own number, min(run, t) while counting, the
      run's number once done. */
  function ShownNumber(value: string, i: int, j: int, t: nat): (n: nat)
    requires MaximalRun(value, i, j) && t >= 1
    ensures n <= Value(value[i..j])
    ensures t < 10 ==> n == Min(Value(value[i..j]), t) && n <= t
    ensures t >= 10 ==> n == Value(value[i..j])
  {
    DisplayedRun(value, i, j, t);
    Value(Display(value, t)[i..j])
  }

  /** From the first tick on, the number a run shows never decreases. */
  lemma DisplayMonotone(value: string, i: int, j: int, t: nat, t': nat)
    requires MaximalRun(value, i, j) && 1 <= t <= t'
    ensures ShownNumber(value, i, j, t) <= ShownNumber(value, i, j, t')
  {
  }

  /** The "Screens prototyped" card ("200+") shows "001+" on its first
      tick. */
  lemma FirstTickExample()
    ensures Display("200+", 1) == "001+"
  {
    assert MaximalRun("200+", 0, 3) && "200+"[0..3] == "200";
    DisplayedRun("200+", 0, 3, 1);
    assert Value("001") == 1;
    ValueInjective(Display("200+", 1)[0..3], "001");
    assert Display("200+", 1) == Display("200+", 1)[0..3] + [Display("200+", 1)[3]];
  }

  /** ... and "009+" on its ninth tick. */
  lemma NinthTickExample()
    ensures Display("200+", 9) == "009+"
  {
    assert MaximalRun("200+", 0, 3) && "200+"[0..3] == "200";
    DisplayedRun("200+", 0, 3, 9);
    assert Value("009") == 9;
    ValueInjective(Display("200+", 9)[0..3], "009");
    assert Display("200+", 9) == Display("200+", 9)[0..3] + [Display("200+", 9)[3]];
  }

  /** "200+" shows itself from the tenth tick, and the "Products designed"
      card ("05+") already shows "05+" on its fifth tick. */
  lemma SettledExamples()
    ensures Display("200+", 10) == "200+"
    ensures Display("05+", 5) == "05+"
  {
    assert MaximalRun("05+", 0, 2) && "05+"[0..2] == "05";
    SettledRunShowsTarget("05+", 0, 2, 5);
    assert Display("05+", 5) == Display("05+", 5)[0..2] + [Display("05+", 5)[2]];
  }

  /** One statistics card: the tick counter `t` of its interval, the text
      `shown`, and whether the interval is still running. */
  class StatItem {
    const value: string
    var t: nat
    var shown: string
    var running: bool

    ghost predicate Valid()
      reads this
    {
      shown == Display(value, t) && running == (t < 10)
    }

    /** A freshly mounted card shows "00" and its interval runs. */
    constructor (value: string)
      ensures Valid() && this.value == value && t == 0 && shown == "00" && running
    {
      this.value := value;
      t := 0;
      shown := "00";
      running := true;
    }

    /** One interval callback: advance the counter and show the count-up
        text, or the value itself (and stop) at the tenth tick; a stopped
        interval fires no more. */
    method Tick()
      requires Valid()
      modifies this
      ensures Valid()
      ensures old(running) ==> t == old(t) + 1
      ensures !old(running) ==> t == old(t) && shown == old(shown) && !running
      ensures t >= 10 ==> shown == value && !running
    {
      if running {
        t := t + 1;
        if t >= 10 {
          shown := value;
          running := false;
        } else {
          shown := RewriteRuns(value, t);
        }
      }
    }
  }
}
