/** Numbers as text, and the string operations the reducer applies to names and
    descriptions, on ASCII text. */
module Text {

  function Digits(n: nat): string {
    if n < 10 then ["0123456789"[n]] else Digits(n / 10) + ["0123456789"[n % 10]]
  }

  function Decimal(n: int): string {
    if n < 0 then "-" + Digits(-n) else Digits(n)
  }

  function LowerChar(c: char): char {
    if 'A' <= c <= 'Z' then (c as int + 32) as char else c
  }

  function UpperChar(c: char): char {
    if 'a' <= c <= 'z' then (c as int - 32) as char else c
  }

  function Lower(s: string): string {
    seq(|s|, i requires 0 <= i < |s| => LowerChar(s[i]))
  }

  function Upper(s: string): string {
    seq(|s|, i requires 0 <= i < |s| => UpperChar(s[i]))
  }

  function Underscored(s: string): string {
    seq(|s|, i requires 0 <= i < |s| => if s[i] == ' ' then '_' else s[i])
  }

  predicate Contains(s: string, part: string) {
    |s| >= |part| && (s[..|part|] == part || (s != "" && Contains(s[1..], part)))
  }

  /** `s.split(sep)[-1]`: what follows the last separator. */
  function AfterLast(s: string, sep: string): string
    requires sep != ""
  {
    if |s| < |sep| then s
    else if s[..|sep|] == sep then AfterLast(s[|sep|..], sep)
    else if Contains(s[1..], sep) then AfterLast(s[1..], sep)
    else s
  }

  /** What Python's `split` and `strip` take for white space. */
  predicate IsSpace(c: char) {
    || '\t' <= c <= '\r' || '\U{1C}' <= c <= ' ' || c in {'\U{85}', '\U{A0}', '\U{1680}'}
    || '\U{2000}' <= c <= '\U{200A}' || c in {'\U{2028}', '\U{2029}', '\U{202F}', '\U{205F}', '\U{3000}'}
  }

  function Strip(s: string): string {
    if s == "" then ""
    else if IsSpace(s[0]) then Strip(s[1..])
    else if IsSpace(s[|s| - 1]) then Strip(s[..|s| - 1])
    else s
  }

  // ---- What these operations do ------------------------------------------

  const CAPITALS: string := "ABCDEFGHIJKLMNOPQRSTUVWXYZ"
  const SMALLS: string := "abcdefghijklmnopqrstuvwxyz"
  const TEN: string := "0123456789"

  /** d is c with `from` letters replaced by the `to` letters at the same place. */
  predicate Mapped(c: char, d: char, from: string, to: string)
    requires |from| == |to|
  {
    if c in from then exists k :: 0 <= k < |from| && from[k] == c && to[k] == d else d == c
  }

  lemma Alphabet()
    ensures |CAPITALS| == |SMALLS| == 26
    ensures forall k :: 0 <= k < 26 ==> CAPITALS[k] as int == 'A' as int + k && SMALLS[k] as int == 'a' as int + k
  {}

  lemma LowerCharIs(c: char)
    ensures Mapped(c, LowerChar(c), CAPITALS, SMALLS)
  {
    hide CAPITALS, SMALLS;
    Alphabet();
    if 'A' <= c <= 'Z' {
      var k := c as int - 'A' as int;
      assert CAPITALS[k] == c && SMALLS[k] == LowerChar(c);
    }
  }

  lemma UpperCharIs(c: char)
    ensures Mapped(c, UpperChar(c), SMALLS, CAPITALS)
  {
    hide CAPITALS, SMALLS;
    Alphabet();
    if 'a' <= c <= 'z' {
      var k := c as int - 'a' as int;
      assert SMALLS[k] == c && CAPITALS[k] == UpperChar(c);
    }
  }

  /** Capital letters become small ones, and nothing else changes. */
  lemma LowerIs(s: string)
    ensures |Lower(s)| == |s| && forall i :: 0 <= i < |s| ==> Mapped(s[i], Lower(s)[i], CAPITALS, SMALLS)
  {
    hide Mapped, LowerChar;
    forall i | 0 <= i < |s|
      ensures Mapped(s[i], Lower(s)[i], CAPITALS, SMALLS)
    {
      LowerCharIs(s[i]);
    }
  }

  lemma UpperIs(s: string)
    ensures |Upper(s)| == |s| && forall i :: 0 <= i < |s| ==> Mapped(s[i], Upper(s)[i], SMALLS, CAPITALS)
  {
    hide Mapped, UpperChar;
    forall i | 0 <= i < |s|
      ensures Mapped(s[i], Upper(s)[i], SMALLS, CAPITALS)
    {
      UpperCharIs(s[i]);
    }
  }

  lemma LowerTwice(s: string)
    ensures Lower(Lower(s)) == Lower(s)
  {}

  /** `s.find(part) >= 0`. */
  predicate OccursAt(s: string, part: string, i: nat) {
    i + |part| <= |s| && s[i..i + |part|] == part
  }

  ghost predicate Occurs(s: string, part: string) {
    exists i: nat :: OccursAt(s, part, i)
  }

  lemma {:induction false} ContainsIff(s: string, part: string)
    ensures Contains(s, part) <==> Occurs(s, part)
  {
    if |s| >= |part| && s[..|part|] == part {
      assert OccursAt(s, part, 0);
    } else if s != "" {
      ContainsIff(s[1..], part);
      OccursNext(s, part);
    }
  }

  lemma OccursNext(s: string, part: string)
    requires s != "" && !OccursAt(s, part, 0)
    ensures Occurs(s, part) <==> Occurs(s[1..], part)
  {
    if i: nat :| OccursAt(s[1..], part, i) {
      assert s[i + 1..i + 1 + |part|] == s[1..][i..i + |part|];
      assert OccursAt(s, part, i + 1);
    }
    if i: nat :| OccursAt(s, part, i) {
      assert s[i..i + |part|] == s[1..][i - 1..i - 1 + |part|];
      assert OccursAt(s[1..], part, i - 1);
    }
  }

  /** The separator stands at i, and t is what follows it. */
  predicate SplitAt(s: string, sep: string, i: nat, t: string) {
    OccursAt(s, sep, i) && t == s[i + |sep|..]
  }

  /** t is what follows the last separator. */
  ghost predicate LastPart(s: string, sep: string, t: string) {
    !Occurs(t, sep) && exists i: nat :: SplitAt(s, sep, i, t)
  }

  lemma SplitShifts(s: string, n: nat, sep: string, i: nat, t: string)
    requires n <= |s| && SplitAt(s[n..], sep, i, t)
    ensures SplitAt(s, sep, n + i, t)
  {
    assert s[n..][i..i + |sep|] == s[n + i..n + i + |sep|];
    assert s[n..][i + |sep|..] == s[n + i + |sep|..];
  }

  lemma {:induction false} AfterLastIs(s: string, sep: string)
    requires sep != ""
    ensures if Contains(s, sep) then LastPart(s, sep, AfterLast(s, sep)) else AfterLast(s, sep) == s
    decreases |s|
  {
    ContainsIff(AfterLast(s, sep), sep);
    if |s| < |sep| {
    } else if s[..|sep|] == sep {
      AfterLastIs(s[|sep|..], sep);
      hide Contains;
      if i: nat :| SplitAt(s[|sep|..], sep, i, AfterLast(s, sep)) {
        SplitShifts(s, |sep|, sep, i, AfterLast(s, sep));
      } else {
        assert SplitAt(s, sep, 0, s[|sep|..]);
      }
    } else if Contains(s[1..], sep) {
      AfterLastIs(s[1..], sep);
      var i: nat :| SplitAt(s[1..], sep, i, AfterLast(s, sep));
      SplitShifts(s, 1, sep, i, AfterLast(s, sep));
    }
  }

  /** No end of the separator is a beginning of it. */
  predicate Unbordered(sep: string) {
    forall k :: 0 < k < |sep| ==> sep[..k] != sep[|sep| - k..]
  }

  /** For such a separator there is only one last part. */
  lemma LastPartUnique(s: string, sep: string, t: string)
    requires sep != "" && Unbordered(sep) && LastPart(s, sep, t)
    ensures Contains(s, sep) && AfterLast(s, sep) == t
  {
    hide Contains, Unbordered;
    var i: nat :| SplitAt(s, sep, i, t);
    ContainsIff(s, sep);
    AfterLastIs(s, sep);
    var u := AfterLast(s, sep);
    var j: nat :| SplitAt(s, sep, j, u);
    if i < j {
      LaterOccurs(s, sep, i, j);
    } else if j < i {
      LaterOccurs(s, sep, j, i);
    }
  }

  lemma LaterOccurs(s: string, sep: string, i: nat, j: nat)
    requires sep != "" && Unbordered(sep) && OccursAt(s, sep, i) && OccursAt(s, sep, j) && i < j
    ensures Occurs(s[i + |sep|..], sep)
  {
    var k := j - i - |sep|;
    assert k >= 0 by {
      if j < i + |sep| {
        Overlap(s, sep, i, j);
      }
    }
    assert s[i + |sep|..][k..k + |sep|] == s[j..j + |sep|];
    assert OccursAt(s[i + |sep|..], sep, k);
  }

  lemma Overlap(s: string, sep: string, i: nat, j: nat)
    requires OccursAt(s, sep, i) && OccursAt(s, sep, j) && i < j < i + |sep|
    ensures var k := |sep| - (j - i); 0 < k < |sep| && sep[..k] == sep[|sep| - k..]
  {
    var k := |sep| - (j - i);
    assert sep[..k] == s[j..j + |sep|][..k] == s[j..j + k];
    assert sep[|sep| - k..] == s[i..i + |sep|][|sep| - k..] == s[j..j + k];
  }

  predicate SpaceOnly(s: string, lo: nat, hi: nat) {
    forall k :: lo <= k < hi && k < |s| ==> IsSpace(s[k])
  }

  /** t stands at s[i..j], with only white space around it and none at its ends. */
  ghost predicate CoreAt(s: string, t: string, i: nat, j: nat) {
    && i <= j <= |s| && t == s[i..j] && SpaceOnly(s, 0, i) && SpaceOnly(s, j, |s|)
    && (t == "" || (!IsSpace(t[0]) && !IsSpace(t[|t| - 1])))
  }

  /** t is s without the white space around it. */
  ghost predicate Stripped(s: string, t: string) {
    exists i: nat, j: nat :: CoreAt(s, t, i, j)
  }

  lemma {:induction false} StripIs(s: string)
    ensures Stripped(s, Strip(s))
    decreases |s|
  {
    var t := Strip(s);
    if s == "" {
      assert CoreAt(s, t, 0, 0);
    } else if IsSpace(s[0]) {
      StripIs(s[1..]);
      var i: nat, j: nat :| CoreAt(s[1..], t, i, j);
      CoreShifts(s, t, i, j);
    } else if IsSpace(s[|s| - 1]) {
      StripIs(s[..|s| - 1]);
      var i: nat, j: nat :| CoreAt(s[..|s| - 1], t, i, j);
      CoreExtends(s, t, i, j);
    } else {
      assert CoreAt(s, t, 0, |s|);
    }
  }

  lemma CoreShifts(s: string, t: string, i: nat, j: nat)
    requires s != "" && IsSpace(s[0]) && CoreAt(s[1..], t, i, j)
    ensures CoreAt(s, t, i + 1, j + 1)
  {
    hide IsSpace;
    forall k | 0 <= k < |s| && (k < i + 1 || j + 1 <= k)
      ensures IsSpace(s[k])
    {
      assert k > 0 ==> s[k] == s[1..][k - 1];
    }
    assert s[i + 1..j + 1] == s[1..][i..j];
  }

  lemma CoreExtends(s: string, t: string, i: nat, j: nat)
    requires s != "" && IsSpace(s[|s| - 1]) && CoreAt(s[..|s| - 1], t, i, j)
    ensures CoreAt(s, t, i, j)
  {
    hide IsSpace;
    forall k | 0 <= k < |s| && (k < i || j <= k)
      ensures IsSpace(s[k])
    {
      assert k < |s| - 1 ==> s[k] == s[..|s| - 1][k];
    }
    assert s[i..j] == s[..|s| - 1][i..j];
  }

  lemma StripUnique(s: string, t: string)
    requires Stripped(s, t)
    ensures t == Strip(s)
  {
    hide IsSpace, Strip;
    StripIs(s);
    var u := Strip(s);
    var i: nat, j: nat :| CoreAt(s, t, i, j);
    var x: nat, y: nat :| CoreAt(s, u, x, y);
    CoreWithin(s, t, i, j, u, x, y);
    CoreWithin(s, u, x, y, t, i, j);
  }

  lemma CoreWithin(s: string, t: string, i: nat, j: nat, u: string, x: nat, y: nat)
    requires CoreAt(s, t, i, j) && CoreAt(s, u, x, y)
    ensures t != "" ==> x <= i < j <= y
  {
    hide IsSpace;
    if t != "" {
      assert t[0] == s[i] && t[|t| - 1] == s[j - 1];
    }
  }

  /** The white space characters one by one. */
  lemma IsSpaceIff(c: char)
    ensures IsSpace(c) <==> c in {
              '\U{9}', '\U{A}', '\U{B}', '\U{C}', '\U{D}', '\U{1C}', '\U{1D}', '\U{1E}', '\U{1F}', ' ', '\U{85}',
              '\U{A0}', '\U{1680}', '\U{2000}', '\U{2001}', '\U{2002}', '\U{2003}', '\U{2004}', '\U{2005}', '\U{2006}',
              '\U{2007}', '\U{2008}', '\U{2009}', '\U{200A}', '\U{2028}', '\U{2029}', '\U{202F}', '\U{205F}',
              '\U{3000}'}
  {}

  /** The number a decimal text stands for. */
  function ValueOf(s: string): nat {
    if s == "" then 0 else 10 * ValueOf(s[..|s| - 1]) + if s[|s| - 1] in TEN then DigitValue(s[|s| - 1]) else 0
  }

  function DigitValue(c: char): (d: nat)
    requires c in TEN
    ensures d < 10 && TEN[d] == c
  {
    if c == '0' then 0 else if c == '1' then 1 else if c == '2' then 2 else if c == '3' then 3 else if c == '4' then 4
    else if c == '5' then 5 else if c == '6' then 6 else if c == '7' then 7 else if c == '8' then 8 else 9
  }

  /** The digits read back as the number, without a leading zero. */
  lemma {:induction false} DigitsRead(n: nat)
    ensures var s := Digits(n);
            && s != "" && ValueOf(s) == n && (forall i :: 0 <= i < |s| ==> s[i] in TEN) && (s[0] == '0' ==> n == 0)
  {
    var s := Digits(n);
    if n < 10 {
      assert s == [TEN[n]] && s[..0] == "";
      assert DigitValue(TEN[n]) == n;
    } else {
      DigitsRead(n / 10);
      assert s[..|s| - 1] == Digits(n / 10) && s[|s| - 1] == TEN[n % 10];
      assert DigitValue(TEN[n % 10]) == n % 10;
    }
  }

  /** `str(n)`: the digits, after a minus sign for a negative number. */
  lemma DecimalReads(n: int)
    ensures n >= 0 ==> ValueOf(Decimal(n)) == n && Decimal(n)[0] in TEN
    ensures n < 0 ==> |Decimal(n)| > 1 && Decimal(n)[0] == '-' && ValueOf(Decimal(n)[1..]) == -n && Decimal(n)[1] in TEN
  {
    DigitsRead(if n < 0 then -n else n);
  }
}
