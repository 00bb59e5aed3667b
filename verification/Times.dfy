/** Times of day spelled `HH:MM`, the minutes they stand for, and the slots between two of them. */
module Times {
  import opened Text

  datatype TimeSlot = TimeSlot(start: string, end: string)

  /** Two digits, a colon, two digits below 60. */
  predicate Clock(s: string) {
    |s| == 5 && IsDigit(s[0]) && IsDigit(s[1]) && s[2] == ':' && '0' <= s[3] <= '5' && IsDigit(s[4])
  }

  function ToMin(hhmm: string): (m: nat)
    requires Clock(hhmm)
  {
    60 * Value(hhmm[..2]) + Value(hhmm[3..])
  }

  function PadTwo(s: string): string {
    if |s| == 0 then "00" else if |s| == 1 then "0" + s else s
  }

  function ToHHMM(min: nat): string {
    PadTwo(Show(min / 60)) + ":" + PadTwo(Show(min % 60))
  }

  lemma TwoDigitValue(s: string)
    requires |s| == 2 && AllDigits(s)
    ensures Value(s) == 10 * Digit(s[0]) + Digit(s[1])
  {
    assert s[..1][..0] == [];
    assert Value(s[..1]) == Digit(s[0]);
  }

  lemma TwoDigits(s: string)
    requires |s| == 2 && AllDigits(s)
    ensures Value(s) == 10 * Digit(s[0]) + Digit(s[1])
    ensures PadTwo(Show(Value(s))) == s
  {
    TwoDigitValue(s);
    var n := Value(s);
    assert n / 10 == Digit(s[0]) && n % 10 == Digit(s[1]);
    assert DigitChar(n % 10) == s[1] && DigitChar(n / 10) == s[0];
    assert s == [s[0], s[1]];
  }

  lemma PaddedValue(n: nat)
    requires n < 100
    ensures |PadTwo(Show(n))| == 2 && AllDigits(PadTwo(Show(n))) && Value(PadTwo(Show(n))) == n
  {
    ShowValue(n);
    if n < 10 {
      assert Show(n) == [DigitChar(n)];
    } else {
      assert Show(n / 10) == [DigitChar(n / 10)];
      assert |Show(n)| == 2;
    }
    TwoDigits(PadTwo(Show(n)));
  }

  /** Minutes of the day survive being spelled. */
  lemma ToHHMMToMin(min: nat)
    requires min < 6000
    ensures Clock(ToHHMM(min)) && ToMin(ToHHMM(min)) == min
  {
    PaddedValue(min / 60);
    PaddedValue(min % 60);
    var h, m := PadTwo(Show(min / 60)), PadTwo(Show(min % 60));
    TwoDigits(m);
    assert ToHHMM(min)[..2] == h && ToHHMM(min)[3..] == m;
  }

  /** A time survives being read. */
  lemma ToMinToHHMM(s: string)
    requires Clock(s)
    ensures ToMin(s) < 6000 && ToHHMM(ToMin(s)) == s
  {
    TwoDigits(s[..2]);
    TwoDigits(s[3..]);
    assert ToMin(s) / 60 == Value(s[..2]) && ToMin(s) % 60 == Value(s[3..]);
    assert s == s[..2] + ":" + s[3..];
  }

  /** Times compare as strings exactly as they compare as minutes. */
  lemma ClockOrder(a: string, b: string)
    requires Clock(a) && Clock(b)
    ensures Less(a, b) <==> ToMin(a) < ToMin(b)
  {
    Digits(a);
    Digits(b);
    FiveLess(a, b);
    DigitOrder(Digit(a[0]), Digit(a[1]), Digit(a[3]), Digit(a[4]), Digit(b[0]), Digit(b[1]), Digit(b[3]), Digit(b[4]));
  }

  lemma Digits(s: string)
    requires Clock(s)
    ensures ToMin(s) == 600 * Digit(s[0]) + 60 * Digit(s[1]) + 10 * Digit(s[3]) + Digit(s[4])
  {
    TwoDigits(s[..2]);
    TwoDigits(s[3..]);
  }

  lemma DigitOrder(a0: nat, a1: nat, a3: nat, a4: nat, b0: nat, b1: nat, b3: nat, b4: nat)
    requires a1 < 10 && b1 < 10 && a3 < 6 && b3 < 6 && a4 < 10 && b4 < 10
    ensures 600 * a0 + 60 * a1 + 10 * a3 + a4 < 600 * b0 + 60 * b1 + 10 * b3 + b4 <==>
      (a0 < b0 || (a0 == b0 && (a1 < b1 || (a1 == b1 && (a3 < b3 || (a3 == b3 && a4 < b4))))))
  {
  }

  lemma FiveLess(a: string, b: string)
    requires |a| == 5 && |b| == 5
    ensures Less(a, b) <==>
      (a[0] < b[0] || (a[0] == b[0] && (a[1] < b[1] || (a[1] == b[1] && (a[2] < b[2] || (a[2] == b[2] &&
      (a[3] < b[3] || (a[3] == b[3] && a[4] < b[4]))))))))
  {
    assert Less(a, b) == (a[0] < b[0] || (a[0] == b[0] && Less(a[1..], b[1..])));
    assert a[1..][1..] == a[2..] && b[1..][1..] == b[2..];
    assert Less(a[1..], b[1..]) == (a[1] < b[1] || (a[1] == b[1] && Less(a[2..], b[2..])));
    assert a[2..][1..] == a[3..] && b[2..][1..] == b[3..];
    assert Less(a[2..], b[2..]) == (a[2] < b[2] || (a[2] == b[2] && Less(a[3..], b[3..])));
    assert a[3..][1..] == a[4..] && b[3..][1..] == b[4..];
    assert Less(a[3..], b[3..]) == (a[3] < b[3] || (a[3] == b[3] && Less(a[4..], b[4..])));
    assert Less(a[4..], b[4..]) == (a[4] < b[4]);
  }
}
