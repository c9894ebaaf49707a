/**
  The string side of the simulator form: stripping non-digits, the
  thousands grouping of the property-value field (`formatNumber`), the
  length caps of the percentage and years fields, removing the grouping
  dots again before the request is sent, and the integer value of a digit
  string (`parseInt` / `parseFloat` on what the form holds).
 */
module NumberFormat {

  predicate IsDigit(c: char) { '0' <= c <= '9' }

  predicate IsDigits(s: string) { forall k :: 0 <= k < |s| ==> IsDigit(s[k]) }

  /** Digits and grouping dots only: the alphabet of a formatted value. */
  predicate IsDigitsOrDots(s: string) {
    forall k :: 0 <= k < |s| ==> IsDigit(s[k]) || s[k] == '.'
  }

  /** `s.replace(/\D/g, "")`: the ASCII digits of `s`, in order. */
  function StripNonDigits(s: string): (r: string)
    ensures IsDigits(r)
    ensures |r| <= |s|
  {
    if s == [] then []
    else (if IsDigit(s[0]) then [s[0]] else []) + StripNonDigits(s[1..])
  }

  /** `s.replace(/\./g, "")`: `s` without its dots. */
  function RemoveDots(s: string): (r: string)
    ensures forall k :: 0 <= k < |r| ==> r[k] != '.'
    ensures |r| <= |s|
  {
    if s == [] then []
    else (if s[0] == '.' then [] else [s[0]]) + RemoveDots(s[1..])
  }

  /** `s.slice(0, n)`: the first `n` characters, or all of `s` when shorter. */
  function Slice(s: string, n: nat): (r: string)
    ensures |r| == if |s| <= n then |s| else n
    ensures r == s[..|r|]
  {
    if |s| <= n then s else s[..n]
  }

  /**
    Where the pattern `\B(?=(\d{3})+(?!\d))` matches in a string of `n`
    digits: at a position `i` strictly inside the string (`\B` between two
    digits) followed by a positive multiple of three digits and then the end.
   */
  predicate DotBefore(n: nat, i: nat) {
    0 < i < n && (n - i) % 3 == 0
  }

  /** What the scan writes for digit `c` at position `i` of `n` digits: the digit, behind a dot where the pattern matches. */
  function Emit(n: nat, i: nat, c: char): string {
    if DotBefore(n, i) then ['.', c] else [c]
  }

  /** The replacement of every match of the grouping pattern by ".", from position `i` on. */
  function GroupFrom(d: string, i: nat): (r: string)
    requires i <= |d|
    ensures |r| >= |d| - i
    decreases |d| - i
  {
    if i == |d| then []
    else Emit(|d|, i, d[i]) + GroupFrom(d, i + 1)
  }

  /** `formatNumber` (app/page.tsx): strip every non-digit, then group by threes from the right. */
  function FormatNumber(s: string): (r: string)
    ensures IsDigitsOrDots(r)
    ensures |r| >= |StripNonDigits(s)|
  {
    GroupFromAlphabet(StripNonDigits(s), 0);
    GroupFrom(StripNonDigits(s), 0)
  }

  /**
    The shape of a grouped number: empty, or a leading group of one to
    three digits followed by any number of groups of a dot and exactly
    three digits.
   */
  predicate WellGrouped(s: string) {
    if |s| <= 3 then IsDigits(s)
    else
      && |s| >= 5
      && s[|s| - 4] == '.'
      && IsDigits(s[|s| - 3..])
      && WellGrouped(s[..|s| - 4])
  }

  /** `10^n`; positive, which bounds the value of an `n`-digit string. */
  function Pow10(n: nat): (p: nat)
    ensures p >= 1
  {
    if n == 0 then 1 else 10 * Pow10(n - 1)
  }

  /** The base-10 value of a digit string: what `parseInt` and `parseFloat` give for it. */
  function DigitsValue(d: string): (v: nat)
    requires IsDigits(d)
    ensures v < Pow10(|d|)
  {
    if d == [] then 0
    else
      var rest := DigitsValue(d[..|d| - 1]);
      var last := d[|d| - 1] as int - '0' as int;
      assert rest <= Pow10(|d| - 1) - 1;
      10 * rest + last
  }

  /** The value is zero exactly when every digit is `0`. */
  lemma {:induction false} DigitsValueZero(d: string)
    requires IsDigits(d)
    ensures DigitsValue(d) == 0 <==> forall k :: 0 <= k < |d| ==> d[k] == '0'
    decreases |d|
  {
    if d != [] {
      var p := d[..|d| - 1];
      DigitsValueZero(p);
      assert forall k :: 0 <= k < |p| ==> p[k] == d[k];
    }
  }

  /** Concatenating digit strings gives a digit string. */
  lemma IsDigitsAppend(a: string, b: string)
    requires IsDigits(a) && IsDigits(b)
    ensures IsDigits(a + b)
  {
    forall k | 0 <= k < |a + b|
      ensures IsDigit((a + b)[k])
    {
      if k < |a| { assert (a + b)[k] == a[k]; } else { assert (a + b)[k] == b[k - |a|]; }
    }
  }

  /** The arithmetic of one step of `DigitsValueAppend`. */
  lemma ShiftByOneDigit(x: int, p: int, y: int, last: int)
    ensures 10 * (x * p + y) + last == x * (10 * p) + (10 * y + last)
  {
    assert 10 * (x * p) == x * (10 * p);
  }

  /** Positional notation: appending digits shifts the value left by their count and adds their value. */
  lemma {:induction false} DigitsValueAppend(a: string, b: string)
    requires IsDigits(a) && IsDigits(b)
    ensures IsDigits(a + b)
    ensures DigitsValue(a + b) == DigitsValue(a) * Pow10(|b|) + DigitsValue(b)
    decreases |b|
  {
    IsDigitsAppend(a, b);
    if b == [] {
      assert a + b == a;
    } else {
      var b', ab := b[..|b| - 1], a + b;
      var last := b[|b| - 1] as int - '0' as int;
      assert ab[..|ab| - 1] == a + b';
      assert ab[|ab| - 1] == b[|b| - 1];
      DigitsValueAppend(a, b');
      assert DigitsValue(ab) == 10 * DigitsValue(a + b') + last;
      assert DigitsValue(b) == 10 * DigitsValue(b') + last;
      ShiftByOneDigit(DigitsValue(a), Pow10(|b'|), DigitsValue(b'), last);
    }
  }

  /** The scan of a digit string writes only digits and dots. */
  lemma {:induction false} GroupFromAlphabet(d: string, i: nat)
    requires IsDigits(d) && i <= |d|
    ensures IsDigitsOrDots(GroupFrom(d, i))
    decreases |d| - i
  {
    if i < |d| {
      GroupFromAlphabet(d, i + 1);
    }
  }

  // ----- Stripping ------------------------------------------------------

  /** Stripping distributes over concatenation: it keeps each character on its own merits. */
  lemma {:induction false} StripNonDigitsAppend(a: string, b: string)
    ensures StripNonDigits(a + b) == StripNonDigits(a) + StripNonDigits(b)
    decreases |a|
  {
    if a == [] {
      assert a + b == b;
    } else {
      var head := if IsDigit(a[0]) then [a[0]] else [];
      assert (a + b)[0] == a[0];
      assert (a + b)[1..] == a[1..] + b;
      StripNonDigitsAppend(a[1..], b);
      assert StripNonDigits(a + b) == head + (StripNonDigits(a[1..]) + StripNonDigits(b));
    }
  }

  /** On one character: a digit is kept and anything else is dropped. With `StripNonDigitsAppend` this fixes stripping on every input. */
  lemma StripNonDigitsChar(c: char)
    ensures StripNonDigits([c]) == if IsDigit(c) then [c] else []
  {
    assert [c][1..] == [];
  }

  /** A digit string is left as it is. */
  lemma {:induction false} StripNonDigitsOfDigits(d: string)
    requires IsDigits(d)
    ensures StripNonDigits(d) == d
    decreases |d|
  {
    if d != [] {
      StripNonDigitsOfDigits(d[1..]);
    }
  }

  /** Stripping is idempotent. */
  lemma StripNonDigitsIdempotent(s: string)
    ensures StripNonDigits(StripNonDigits(s)) == StripNonDigits(s)
  {
    StripNonDigitsOfDigits(StripNonDigits(s));
  }

  // ----- Grouping: the right-to-left view ---------------------------------

  /** Where the pattern does not match, the scan copies the digits unchanged. */
  lemma {:induction false} GroupFromPlain(d: string, i: nat)
    requires i <= |d|
    requires forall j :: i <= j < |d| ==> !DotBefore(|d|, j)
    ensures GroupFrom(d, i) == d[i..]
    decreases |d| - i
  {
    if i < |d| {
      GroupFromPlain(d, i + 1);
      assert d[i..] == [d[i]] + d[i + 1..];
    }
  }

  /** Numbers of at most three digits get no dot. */
  lemma FormatShort(d: string)
    requires |d| <= 3
    ensures GroupFrom(d, 0) == d
  {
    GroupFromPlain(d, 0);
  }

  /** The last one or two digits carry no dot. */
  lemma GroupFromLastDigits(d: string)
    requires |d| >= 2
    ensures GroupFrom(d, |d| - 1) == [d[|d| - 1]]
    ensures GroupFrom(d, |d| - 2) == [d[|d| - 2], d[|d| - 1]]
  {
    var n := |d|;
    assert !DotBefore(n, n - 1) by { assert n - (n - 1) == 1; }
    assert !DotBefore(n, n - 2) by { assert n - (n - 2) == 2; }
  }

  /** The last three digits of a longer number form one group behind a dot. */
  lemma GroupFromLastGroup(d: string)
    requires |d| > 3
    ensures GroupFrom(d, |d| - 3) == "." + d[|d| - 3..]
  {
    var n := |d|;
    GroupFromLastDigits(d);
    assert DotBefore(n, n - 3) by { assert n - (n - 3) == 3; }
    assert d[n - 3..] == [d[n - 3], d[n - 2], d[n - 1]];
  }

  /** Away from the end, a match position stays one when three digits are cut off the end. */
  lemma EmitShift(n: nat, i: nat, c: char)
    requires i + 3 < n
    ensures Emit(n, i, c) == Emit(n - 3, i, c)
  {
    assert n - i == (n - 3 - i) + 3;
  }

  /** Before the last group, the scan of the number and of the number without its last three digits agree. */
  lemma GroupFromStep(d: string, i: nat)
    requires |d| > 3 && i < |d| - 3
    ensures GroupFrom(d, i) == Emit(|d| - 3, i, d[i]) + GroupFrom(d, i + 1)
    ensures GroupFrom(d[..|d| - 3], i) == Emit(|d| - 3, i, d[i]) + GroupFrom(d[..|d| - 3], i + 1)
  {
    EmitShift(|d|, i, d[i]);
    assert d[..|d| - 3][i] == d[i];
  }

  /** Regrouping a concatenation, for the inductive step of `GroupFromSplit`. */
  lemma ConcatAssoc(a: string, b: string, c: string)
    ensures a + (b + c) == (a + b) + c
  {
  }

  /** Cutting off the last three digits leaves the match positions of the rest unchanged. */
  lemma {:induction false} GroupFromSplit(d: string, i: nat)
    requires |d| > 3 && i <= |d| - 3
    ensures GroupFrom(d, i) == GroupFrom(d[..|d| - 3], i) + ("." + d[|d| - 3..])
    decreases |d| - 3 - i
  {
    var p, g := d[..|d| - 3], "." + d[|d| - 3..];
    if i == |d| - 3 {
      GroupFromLastGroup(d);
      assert GroupFrom(p, i) == [];
    } else {
      GroupFromSplit(d, i + 1);
      GroupFromStep(d, i);
      ConcatAssoc(Emit(|d| - 3, i, d[i]), GroupFrom(p, i + 1), g);
    }
  }

  /** The grouping read from the right: a group of the last three digits after the grouping of the rest. */
  lemma FormatSplitsLastGroup(d: string)
    requires |d| > 3
    ensures GroupFrom(d, 0) == GroupFrom(d[..|d| - 3], 0) + ("." + d[|d| - 3..])
  {
    GroupFromSplit(d, 0);
  }

  /** A group of three digits behind a dot extends a grouped number. */
  lemma WellGroupedExtend(q: string, g: string)
    requires WellGrouped(q) && q != [] && IsDigits(g) && |g| == 3
    ensures WellGrouped(q + ("." + g))
  {
    var r := q + ("." + g);
    assert r[..|r| - 4] == q;
    assert r[|r| - 3..] == g;
    assert r[|r| - 4] == '.';
  }

  /** The grouping of a digit string has the shape of a grouped number. */
  lemma {:induction false} GroupedDigitsWellGrouped(d: string)
    requires IsDigits(d)
    ensures WellGrouped(GroupFrom(d, 0))
    decreases |d|
  {
    if |d| <= 3 {
      FormatShort(d);
    } else {
      var p := d[..|d| - 3];
      FormatSplitsLastGroup(d);
      GroupedDigitsWellGrouped(p);
      assert IsDigits(d[|d| - 3..]);
      WellGroupedExtend(GroupFrom(p, 0), d[|d| - 3..]);
    }
  }

  // ----- Grouping: removing the dots again --------------------------------

  /** A suffix is its first character followed by the next suffix: the shape the scan's inductive steps unfold. */
  lemma SuffixCons(d: string, i: nat)
    requires i < |d|
    ensures d[i..] == [d[i]] + d[i + 1..]
  {
  }

  /** Removing dots distributes over concatenation. */
  lemma {:induction false} RemoveDotsAppend(a: string, b: string)
    ensures RemoveDots(a + b) == RemoveDots(a) + RemoveDots(b)
    decreases |a|
  {
    if a == [] {
      assert a + b == b;
    } else {
      assert (a + b)[1..] == a[1..] + b;
      RemoveDotsAppend(a[1..], b);
    }
  }

  /** One step of the scan: an optional dot, then the digit. */
  lemma EmitDigit(n: nat, i: nat, c: char)
    requires IsDigit(c)
    ensures RemoveDots(Emit(n, i, c)) == [c]
    ensures StripNonDigits(Emit(n, i, c)) == [c]
  {
    if DotBefore(n, i) {
      assert Emit(n, i, c)[1..] == [c];
    }
  }

  /** Removing the dots from the scan gives back the digits it started from. */
  lemma {:induction false} RemoveDotsGroupFrom(d: string, i: nat)
    requires IsDigits(d) && i <= |d|
    ensures RemoveDots(GroupFrom(d, i)) == d[i..]
    decreases |d| - i
  {
    if i < |d| {
      var head, rest := Emit(|d|, i, d[i]), GroupFrom(d, i + 1);
      assert GroupFrom(d, i) == head + rest;
      RemoveDotsAppend(head, rest);
      EmitDigit(|d|, i, d[i]);
      RemoveDotsGroupFrom(d, i + 1);
      SuffixCons(d, i);
    }
  }

  /** Stripping the non-digits of the scan gives back the digits it started from. */
  lemma {:induction false} StripNonDigitsGroupFrom(d: string, i: nat)
    requires IsDigits(d) && i <= |d|
    ensures StripNonDigits(GroupFrom(d, i)) == d[i..]
    decreases |d| - i
  {
    if i < |d| {
      var head, rest := Emit(|d|, i, d[i]), GroupFrom(d, i + 1);
      assert GroupFrom(d, i) == head + rest;
      StripNonDigitsAppend(head, rest);
      EmitDigit(|d|, i, d[i]);
      StripNonDigitsGroupFrom(d, i + 1);
      SuffixCons(d, i);
    }
  }

  // ----- What the form relies on ------------------------------------------

  /** Every dot of the output stands between two groups: leading group of 1-3 digits, then groups of exactly 3. */
  lemma FormatNumberWellGrouped(s: string)
    ensures WellGrouped(FormatNumber(s))
  {
    GroupedDigitsWellGrouped(StripNonDigits(s));
  }

  /** `formatNumber(s).replace(/\./g, "")` is exactly the digits of `s`, in order. */
  lemma FormatNumberRemoveDots(s: string)
    ensures RemoveDots(FormatNumber(s)) == StripNonDigits(s)
  {
    RemoveDotsGroupFrom(StripNonDigits(s), 0);
  }

  /** The output is empty exactly when the input has no digit. */
  lemma FormatNumberEmpty(s: string)
    ensures FormatNumber(s) == [] <==> StripNonDigits(s) == []
  {
  }

  /** Formatting an already formatted value changes nothing. */
  lemma FormatNumberIdempotent(s: string)
    ensures FormatNumber(FormatNumber(s)) == FormatNumber(s)
  {
    StripNonDigitsGroupFrom(StripNonDigits(s), 0);
  }

  /** The percentage and years normalisation: digits only, capped, a prefix of the stripped digits. */
  lemma SliceOfStripped(s: string, n: nat)
    ensures IsDigits(Slice(StripNonDigits(s), n))
    ensures |Slice(StripNonDigits(s), n)| <= n
    ensures Slice(StripNonDigits(s), n) <= StripNonDigits(s)
    ensures |StripNonDigits(s)| <= n ==> Slice(StripNonDigits(s), n) == StripNonDigits(s)
  {
  }
}
