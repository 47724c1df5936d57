/** The appointment page's free-slot generator (`getAvailableSlots`):
    service blocks of two hours laid end to end from the start of the
    employee's shift, each kept unless its start time is already booked.
    Times are the `"HH:MM"` strings SQL Server's `CONVERT(varchar(5), t, 108)`
    produces. Finding the shift (the weekday of the date, the schedule
    lookup) and the booked times happens before this logic and arrives
    here as parameters. */
module Slots {
  import opened Wrappers
  import opened Text

  /** `duracionServicio`: every booking occupies 120 minutes. */
  const Duration := 120

  /** A working shift as read from `Horario_Empleado`. */
  datatype Shift = Shift(start: string, end: string)

  /** A 24-hour `"HH:MM"` time of day. */
  predicate IsClock(h: string) {
    && |h| == 5
    && IsDigit(h[0]) && IsDigit(h[1]) && h[2] == ':' && IsDigit(h[3]) && IsDigit(h[4])
    && 10 * DigitValue(h[0]) + DigitValue(h[1]) < 24
    && 10 * DigitValue(h[3]) + DigitValue(h[4]) < 60
  }

  function Hours(h: string): nat
    requires IsClock(h)
  {
    10 * DigitValue(h[0]) + DigitValue(h[1])
  }

  function Minutes(h: string): nat
    requires IsClock(h)
  {
    10 * DigitValue(h[3]) + DigitValue(h[4])
  }

  lemma TwoDigitNumber(t: string)
    requires |t| == 2 && AllDigits(t)
    ensures NumberValue(t) == 10 * DigitValue(t[0]) + DigitValue(t[1])
  {
    var u := t[..1];
    assert u == [t[0]] && u[..0] == [];
    assert NumberValue(u) == DigitValue(t[0]);
    assert NumberValue(t) == 10 * NumberValue(u) + DigitValue(t[1]);
  }

  /** On a clock time, `split(':')` yields the hour and the minute digits. */
  lemma ClockSplit(h: string)
    requires IsClock(h)
    ensures Split(h, ':') == [h[..2], h[3..]]
    ensures AllDigits(h[..2]) && AllDigits(h[3..])
  {
    assert IndexOf(h, ':') == 2 by {
      assert h[0] != ':' && h[1] != ':';
    }
    var rest := h[3..];
    assert IndexOf(rest, ':') == 2 by {
      assert rest[0] != ':' && rest[1] != ':';
    }
    assert Split(rest, ':') == [rest];
  }

  /** `toMinutes`: the hour times 60 plus the minute. */
  function ToMinutes(h: string): (m: nat)
    requires IsClock(h)
    ensures m < 1440
  {
    60 * Hours(h) + Minutes(h)
  }

  /** `toMinutes` reads the time as the source does,
      `const [hh, mm] = h.split(':').map(Number); hh * 60 + mm`. */
  lemma ToMinutesBySplit(h: string)
    requires IsClock(h)
    ensures var parts := Split(h, ':');
            && |parts| == 2 && AllDigits(parts[0]) && AllDigits(parts[1])
            && ToMinutes(h) == NumberValue(parts[0]) * 60 + NumberValue(parts[1])
  {
    ClockSplit(h);
    var parts := Split(h, ':');
    TwoDigitNumber(parts[0]);
    TwoDigitNumber(parts[1]);
  }

  /** `n.toString().padStart(2, '0')`: two digits below 100, all of
      `n`'s digits from 100 on. */
  function Pad2(n: nat): string {
    if n < 100 then [DigitChar(n / 10), DigitChar(n % 10)] else DecimalString(n)
  }

  /** `Pad2` is the padding the source writes out. */
  lemma Pad2IsPadStart(n: nat)
    ensures Pad2(n) == PadStart(DecimalString(n), 2, '0')
  {
    if n < 100 {
      TwoDigits(n);
    }
  }

  /** `toTimeStr`: the hour and the minute, each zero-padded to two digits. */
  function ToTimeStr(m: nat): string {
    Pad2(m / 60) + ":" + Pad2(m % 60)
  }

  /** `toTimeStr` formats as the source does,
      `${hh.toString().padStart(2, '0')}:${mm.toString().padStart(2, '0')}`. */
  lemma ToTimeStrByPadStart(m: nat)
    ensures ToTimeStr(m)
            == PadStart(DecimalString(m / 60), 2, '0') + ":" + PadStart(DecimalString(m % 60), 2, '0')
  {
    Pad2IsPadStart(m / 60);
    Pad2IsPadStart(m % 60);
  }

  lemma DigitRoundTrip(c: char)
    requires IsDigit(c)
    ensures DigitChar(DigitValue(c)) == c
  {
  }

  /** The clock text of an hour and a minute, digit by digit. */
  function ClockText(hh: nat, mm: nat): string
    requires hh < 24 && mm < 60
  {
    [DigitChar(hh / 10), DigitChar(hh % 10), ':', DigitChar(mm / 10), DigitChar(mm % 10)]
  }

  lemma ClockTextReads(hh: nat, mm: nat)
    requires hh < 24 && mm < 60
    ensures IsClock(ClockText(hh, mm))
    ensures Hours(ClockText(hh, mm)) == hh && Minutes(ClockText(hh, mm)) == mm
  {
  }

  lemma JoinClock(p: string, q: string)
    requires |p| == 2 && |q| == 2
    ensures p + ":" + q == [p[0], p[1], ':', q[0], q[1]]
  {
  }

  lemma TimeStrDigits(m: nat)
    requires m < 1440
    ensures ToTimeStr(m) == ClockText(m / 60, m % 60)
  {
    JoinClock(Pad2(m / 60), Pad2(m % 60));
  }

  /** Every minute of the day formats to a clock time that reads back as
      the same minute. */
  lemma ClockOfMinutes(m: nat)
    requires m < 1440
    ensures IsClock(ToTimeStr(m))
    ensures ToMinutes(ToTimeStr(m)) == m
  {
    TimeStrDigits(m);
    ClockTextReads(m / 60, m % 60);
  }

  lemma DivTen(q: nat, r: nat)
    requires r < 10
    ensures (10 * q + r) / 10 == q && (10 * q + r) % 10 == r
  {
  }

  lemma DivSixty(q: nat, r: nat)
    requires r < 60
    ensures (60 * q + r) / 60 == q && (60 * q + r) % 60 == r
  {
  }

  lemma ClockTextOf(h: string)
    requires IsClock(h)
    ensures h == ClockText(Hours(h), Minutes(h))
  {
    DivTen(DigitValue(h[0]), DigitValue(h[1]));
    DivTen(DigitValue(h[3]), DigitValue(h[4]));
    DigitRoundTrip(h[0]);
    DigitRoundTrip(h[1]);
    DigitRoundTrip(h[3]);
    DigitRoundTrip(h[4]);
  }

  /** Every clock time is the format of the minute it reads as. */
  lemma MinutesOfClock(h: string)
    requires IsClock(h)
    ensures ToTimeStr(ToMinutes(h)) == h
  {
    var m := ToMinutes(h);
    assert m / 60 == Hours(h) && m % 60 == Minutes(h) by {
      DivSixty(Hours(h), Minutes(h));
    }
    assert ToTimeStr(m) == ClockText(Hours(h), Minutes(h)) by {
      TimeStrDigits(m);
    }
    assert h == ClockText(Hours(h), Minutes(h)) by {
      ClockTextOf(h);
    }
  }

  /** Formatting is injective on the minutes of a day. */
  lemma ToTimeStrInjective(m: nat, n: nat)
    requires m < 1440 && n < 1440
    ensures ToTimeStr(m) == ToTimeStr(n) <==> m == n
  {
    ClockOfMinutes(m);
    ClockOfMinutes(n);
  }

  /** A start time `m` is a candidate of the shift `[a, b)`: a whole
      number of blocks after the start, with room for a full block before
      the end. */
  predicate Candidate(a: int, b: int, m: int) {
    a <= m && m + Duration <= b && (m - a) % Duration == 0
  }

  /** The slots from `cur` on, one block at a time, as the loop produces
      them: the formatted time of every block that still fits, unless that
      time is booked. */
  function Generate(cur: nat, b: int, occupied: seq<string>): seq<string>
    decreases b - cur
  {
    if cur + Duration > b then []
    else
      var slot := ToTimeStr(cur);
      (if slot in occupied then [] else [slot]) + Generate(cur + Duration, b, occupied)
  }

  /** The start minutes of the blocks `Generate` keeps. */
  function FreeStarts(cur: nat, b: int, occupied: seq<string>): seq<nat>
    decreases b - cur
  {
    if cur + Duration > b then []
    else (if ToTimeStr(cur) in occupied then [] else [cur]) + FreeStarts(cur + Duration, b, occupied)
  }

  /** Each generated slot is the formatted start of the matching kept block. */
  lemma {:induction false} GenerateFormats(cur: nat, b: int, occupied: seq<string>)
    ensures var s := Generate(cur, b, occupied);
            var f := FreeStarts(cur, b, occupied);
            |s| == |f| && forall i :: 0 <= i < |s| ==> s[i] == ToTimeStr(f[i])
    decreases b - cur
  {
    if cur + Duration <= b {
      GenerateFormats(cur + Duration, b, occupied);
      var s := Generate(cur, b, occupied);
      var f := FreeStarts(cur, b, occupied);
      var s' := Generate(cur + Duration, b, occupied);
      var f' := FreeStarts(cur + Duration, b, occupied);
      if ToTimeStr(cur) in occupied {
        assert s == s' && f == f';
      } else {
        assert s == [ToTimeStr(cur)] + s' && f == [cur] + f';
        forall i | 0 <= i < |s|
          ensures s[i] == ToTimeStr(f[i])
        {
          if i > 0 {
            assert s[i] == s'[i - 1] && f[i] == f'[i - 1];
          }
        }
      }
    }
  }

  lemma AlignedStep(a: int, m: int)
    requires (m - (a + Duration)) % Duration == 0
    ensures (m - a) % Duration == 0
  {
  }

  /** Every kept block is a candidate. */
  lemma {:induction false} FreeStartsCandidates(cur: nat, b: int, occupied: seq<string>)
    ensures forall m :: m in FreeStarts(cur, b, occupied) ==> Candidate(cur, b, m)
    decreases b - cur
  {
    if cur + Duration <= b {
      FreeStartsCandidates(cur + Duration, b, occupied);
      forall m | m in FreeStarts(cur + Duration, b, occupied)
        ensures Candidate(cur, b, m)
      {
        AlignedStep(cur, m);
      }
    }
  }

  /** No kept block starts at a booked time. */
  lemma {:induction false} FreeStartsFree(cur: nat, b: int, occupied: seq<string>)
    ensures forall m :: m in FreeStarts(cur, b, occupied) ==> ToTimeStr(m) !in occupied
    decreases b - cur
  {
    if cur + Duration <= b {
      FreeStartsFree(cur + Duration, b, occupied);
    }
  }

  predicate Increasing(f: seq<int>) {
    forall i, j :: 0 <= i < j < |f| ==> f[i] < f[j]
  }

  lemma IncreasingCons(x: int, f: seq<int>)
    requires Increasing(f)
    requires forall y :: y in f ==> x < y
    ensures Increasing([x] + f)
  {
    var g := [x] + f;
    forall i, j | 0 <= i < j < |g|
      ensures g[i] < g[j]
    {
      assert g[j] == f[j - 1] && f[j - 1] in f;
      if i > 0 {
        assert g[i] == f[i - 1];
      } else {
        assert g[i] == x;
      }
    }
  }

  /** The kept blocks are strictly increasing. */
  lemma {:induction false} FreeStartsIncreasing(cur: nat, b: int, occupied: seq<string>)
    ensures Increasing(FreeStarts(cur, b, occupied))
    decreases b - cur
  {
    if cur + Duration <= b {
      var f' := FreeStarts(cur + Duration, b, occupied);
      FreeStartsCandidates(cur + Duration, b, occupied);
      FreeStartsIncreasing(cur + Duration, b, occupied);
      if ToTimeStr(cur) !in occupied {
        IncreasingCons(cur, f');
      }
    }
  }

  /** Every free candidate is kept. */
  lemma {:induction false} FreeStartsComplete(cur: nat, b: int, occupied: seq<string>, m: nat)
    requires Candidate(cur, b, m) && ToTimeStr(m) !in occupied
    ensures m in FreeStarts(cur, b, occupied)
    decreases b - cur
  {
    if m != cur {
      FreeStartsComplete(cur + Duration, b, occupied, m);
    }
  }

  /** `s` is the right answer for the shift `[a, b)`: free clock times of
      candidate blocks, earliest first, and every free candidate. */
  ghost predicate SlotsOfShift(a: int, b: int, occupied: seq<string>, s: seq<string>) {
    && (forall i :: 0 <= i < |s| ==>
          IsClock(s[i]) && Candidate(a, b, ToMinutes(s[i])) && s[i] !in occupied)
    && (forall i, j :: 0 <= i < j < |s| ==> IsClock(s[i]) && IsClock(s[j]) && ToMinutes(s[i]) < ToMinutes(s[j]))
    && (forall m: nat :: Candidate(a, b, m) && ToTimeStr(m) !in occupied ==> ToTimeStr(m) in s)
  }

  /** What `Generate` produces from the start of a shift is the right answer. */
  lemma GenerateCorrect(a: nat, b: int, occupied: seq<string>)
    requires b < 1440
    ensures SlotsOfShift(a, b, occupied, Generate(a, b, occupied))
  {
    var s := Generate(a, b, occupied);
    var f := FreeStarts(a, b, occupied);
    GenerateFormats(a, b, occupied);
    FreeStartsCandidates(a, b, occupied);
    FreeStartsFree(a, b, occupied);
    FreeStartsIncreasing(a, b, occupied);
    forall i | 0 <= i < |s|
      ensures IsClock(s[i]) && ToMinutes(s[i]) == f[i] && Candidate(a, b, f[i])
    {
      assert f[i] in f;
      ClockOfMinutes(f[i]);
    }
    forall m: nat | Candidate(a, b, m) && ToTimeStr(m) !in occupied
      ensures ToTimeStr(m) in s
    {
      FreeStartsComplete(a, b, occupied, m);
      var i :| 0 <= i < |f| && f[i] == m;
      assert s[i] == ToTimeStr(m);
    }
  }

  /** One step of the walk: the block at `cur` is kept unless its start is occupied. */
  lemma GenerateStep(cur: nat, b: int, occupied: seq<string>, slots: seq<string>)
    requires cur + Duration <= b
    ensures var slot := ToTimeStr(cur);
            slots + Generate(cur, b, occupied)
            == (if slot in occupied then slots else slots + [slot]) + Generate(cur + Duration, b, occupied)
  {
    var slot := ToTimeStr(cur);
    var rest := Generate(cur + Duration, b, occupied);
    if slot !in occupied {
      assert Generate(cur, b, occupied) == [slot] + rest;
      assert (slots + [slot]) + rest == slots + ([slot] + rest);
    } else {
      assert Generate(cur, b, occupied) == rest;
    }
  }

  /** The `while` loop of the generator: it produces exactly the reference
      sequence `Generate` describes. */
  method WalkShift(a: nat, b: int, occupied: seq<string>) returns (slots: seq<string>)
    ensures slots == Generate(a, b, occupied)
  {
    slots := [];
    var cur := a;
    while cur + Duration <= b
      invariant slots + Generate(cur, b, occupied) == Generate(a, b, occupied)
      decreases b - cur
    {
      GenerateStep(cur, b, occupied, slots);
      var slot := ToTimeStr(cur);
      if slot !in occupied {
        slots := slots + [slot];
      }
      cur := cur + Duration;
    }
    assert slots + [] == slots;
  }

  /** The generator. With no shift the employee does not work that day and
      there are no slots. Otherwise the slots are exactly the candidates
      whose formatted time is not booked, earliest first. */
  method AvailableSlots(shift: Option<Shift>, occupied: seq<string>) returns (slots: seq<string>)
    requires shift.Some? ==> IsClock(shift.value.start) && IsClock(shift.value.end)
    ensures shift.None? ==> slots == []
    ensures shift.Some? ==>
              SlotsOfShift(ToMinutes(shift.value.start), ToMinutes(shift.value.end), occupied, slots)
  {
    if shift.None? {
      return [];
    }
    var a := ToMinutes(shift.value.start);
    var b := ToMinutes(shift.value.end);
    slots := WalkShift(a, b, occupied);
    GenerateCorrect(a, b, occupied);
  }
}
