/** Strings: decimal numbers, splitting and joining, and the order strings compare by. */
module Text {
  import opened Wrappers

  // ---------------------------------------------------------------- decimal numbers

  predicate IsDigit(c: char) {
    '0' <= c <= '9'
  }

  function Digit(c: char): nat
    requires IsDigit(c)
  {
    (c - '0') as nat
  }

  function DigitChar(n: nat): (c: char)
    requires n < 10
    ensures IsDigit(c) && Digit(c) == n
  {
    '0' + n as char
  }

  predicate AllDigits(s: string) {
    forall i :: 0 <= i < |s| ==> IsDigit(s[i])
  }

  /** The number a digit string spells, leading zeros and all; 0 for the empty string. */
  function Value(s: string): nat
    requires AllDigits(s)
  {
    if s == [] then 0 else 10 * Value(s[..|s| - 1]) + Digit(s[|s| - 1])
  }

  /** An unsigned parse: one leading `+` is taken, a `-` never, and the number must fit. */
  function ParseUnsigned(s: string, max: nat): Option<nat> {
    var digits := if |s| > 1 && s[0] == '+' then s[1..] else s;
    if digits == [] || !AllDigits(digits) || Value(digits) > max then None else Some(Value(digits))
  }

  /** The decimal spelling. */
  function Show(n: nat): (s: string)
    ensures s != [] && AllDigits(s)
  {
    if n < 10 then [DigitChar(n)] else Show(n / 10) + [DigitChar(n % 10)]
  }

  lemma {:induction false} ShowValue(n: nat)
    ensures Value(Show(n)) == n
  {
    var s := Show(n);
    if n < 10 {
      assert s[..0] == [];
    } else {
      ShowValue(n / 10);
      assert s[..|s| - 1] == Show(n / 10);
    }
  }

  // ---------------------------------------------------------------- finding

  function FirstIndexFrom(s: string, c: char, n: nat): (i: int)
    requires n <= |s|
    ensures i == -1 || n <= i < |s|
    ensures i == -1 ==> forall k :: n <= k < |s| ==> s[k] != c
    ensures i >= 0 ==> s[i] == c && forall k :: n <= k < i ==> s[k] != c
    decreases |s| - n
  {
    if n == |s| then -1 else if s[n] == c then n else FirstIndexFrom(s, c, n + 1)
  }

  /** Where `c` first is, or -1. */
  function FirstIndex(s: string, c: char): (i: int)
    ensures -1 <= i < |s|
    ensures i == -1 <==> c !in s
    ensures i >= 0 ==> s[i] == c && forall k :: 0 <= k < i ==> s[k] != c
  {
    FirstIndexFrom(s, c, 0)
  }

  function LastIndexBelow(s: string, c: char, n: nat): (i: int)
    requires n <= |s|
    ensures -1 <= i < n
    ensures i == -1 ==> forall k :: 0 <= k < n ==> s[k] != c
    ensures i >= 0 ==> s[i] == c && forall k :: i < k < n ==> s[k] != c
  {
    if n == 0 then -1 else if s[n - 1] == c then n - 1 else LastIndexBelow(s, c, n - 1)
  }

  /** Where `c` last is, or -1. */
  function LastIndex(s: string, c: char): (i: int)
    ensures -1 <= i < |s|
    ensures i == -1 <==> c !in s
    ensures i >= 0 ==> s[i] == c && forall k :: i < k < |s| ==> s[k] != c
  {
    LastIndexBelow(s, c, |s|)
  }

  /** What comes before and after the only place `c` can first be, or last be. */
  lemma FirstIndexIs(a: string, c: char, b: string)
    requires c !in a
    ensures FirstIndex(a + [c] + b, c) == |a|
    ensures (a + [c] + b)[..|a|] == a && (a + [c] + b)[|a| + 1..] == b
  {
    var s := a + [c] + b;
    assert s[|a|] == c;
    forall k | 0 <= k < |a| ensures s[k] != c {
      assert s[k] == a[k];
    }
  }

  lemma LastIndexIs(a: string, c: char, b: string)
    requires c !in b
    ensures LastIndex(a + [c] + b, c) == |a|
    ensures (a + [c] + b)[..|a|] == a && (a + [c] + b)[|a| + 1..] == b
  {
    var s := a + [c] + b;
    assert s[|a|] == c;
    forall k | |a| < k < |s| ensures s[k] != c {
      assert s[k] == b[k - |a| - 1];
    }
  }

  // ---------------------------------------------------------------- splitting and joining

  function Split(s: string, c: char): (parts: seq<string>)
    ensures parts != []
    decreases |s|
  {
    var i := FirstIndex(s, c);
    if i < 0 then [s] else [s[..i]] + Split(s[i + 1..], c)
  }

  function Join(parts: seq<string>, c: char): string
    decreases |parts|
  {
    if parts == [] then "" else if |parts| == 1 then parts[0] else parts[0] + [c] + Join(parts[1..], c)
  }

  lemma {:induction false} SplitJoin(parts: seq<string>, c: char)
    requires parts != [] && forall p | p in parts :: c !in p
    ensures Split(Join(parts, c), c) == parts
    decreases |parts|
  {
    if |parts| > 1 {
      FirstIndexIs(parts[0], c, Join(parts[1..], c));
      SplitJoin(parts[1..], c);
    }
  }

  /** Splitting goes on past a separator. */
  lemma {:induction false} SplitCat(a: string, c: char, b: string)
    ensures Split(a + [c] + b, c) == Split(a, c) + Split(b, c)
    decreases |a|
  {
    var i := FirstIndex(a, c);
    if i < 0 {
      FirstIndexIs(a, c, b);
    } else {
      var front, back := a[..i], a[i + 1..];
      assert c !in front;
      assert a == front + [c] + back;
      assert a + [c] + b == front + [c] + (back + [c] + b);
      FirstIndexIs(front, c, back + [c] + b);
      SplitCat(back, c, b);
    }
  }

  function SplitEach(parts: seq<string>, c: char): seq<string> {
    if parts == [] then [] else Split(parts[0], c) + SplitEach(parts[1..], c)
  }

  /** Joined texts split into what each of them splits into. */
  lemma {:induction false} SplitJoinEach(parts: seq<string>, c: char)
    requires parts != []
    ensures Split(Join(parts, c), c) == SplitEach(parts, c)
    decreases |parts|
  {
    if |parts| == 1 {
      assert SplitEach(parts[1..], c) == [];
    } else {
      SplitCat(parts[0], c, Join(parts[1..], c));
      SplitJoinEach(parts[1..], c);
    }
  }

  // ---------------------------------------------------------------- order

  /** The order strings compare by: character by character, a proper prefix first. */
  predicate Less(a: string, b: string) {
    if b == [] then false
    else if a == [] then true
    else a[0] < b[0] || (a[0] == b[0] && Less(a[1..], b[1..]))
  }

  predicate AtMost(a: string, b: string) {
    !Less(b, a)
  }

  lemma {:induction false} LessTrans(a: string, b: string, c: string)
    requires Less(a, b) && Less(b, c)
    ensures Less(a, c)
  {
    if a != [] && a[0] == b[0] == c[0] {
      LessTrans(a[1..], b[1..], c[1..]);
    }
  }

  lemma {:induction false} LessTotal(a: string, b: string)
    ensures Less(a, b) || a == b || Less(b, a)
    ensures !(Less(a, b) && Less(b, a)) && !(a == b && Less(a, b))
  {
    if a != [] && b != [] && a[0] == b[0] {
      LessTotal(a[1..], b[1..]);
      assert a == [a[0]] + a[1..] && b == [b[0]] + b[1..];
    }
  }
}
