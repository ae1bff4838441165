/** Where tools/mips_assembler.py keeps the registers of a branch until it is
    linked: in the comment text `rs=<name> rt=<name> label=<label>`, split again
    at white space.  The assembler model keeps the registers themselves; here is
    when that is the same. */
module BranchComment {
  import opened MipsDisasm
  import opened Text
  import opened Options

  function Digit(n: nat): char
    requires n < 10
  {
    ('0' as int + n) as char
  }

  /** The names of the register enumeration. */
  function Name(r: Reg): string {
    if r == ZERO then "ZERO" else if r == AT then "AT"
    else if r < A0 then ['V', Digit(r - V0)]
    else if r < T0 then ['A', Digit(r - A0)]
    else if r < S0 then ['T', Digit(r - T0)]
    else if r < T8 then ['S', Digit(r - S0)]
    else if r < 26 then ['T', Digit(r - S0)]
    else if r < GP then ['K', Digit(r - 26)]
    else if r == GP then "GP" else if r == SP then "SP" else if r == FP then "FP" else "RA"
  }

  /** `Reg[name]`: no register of that name is an error. */
  function Lookup(name: string, r: nat := 0): Option<Reg>
    decreases 32 - r
  {
    if r >= 32 then None else if Name(r) == name then Some(r) else Lookup(name, r + 1)
  }

  predicate NoSpace(s: string) {
    forall i :: 0 <= i < |s| ==> !IsSpace(s[i])
  }

  function TokenLength(s: string): (n: nat)
    ensures n <= |s|
  {
    if s == "" || IsSpace(s[0]) then 0 else 1 + TokenLength(s[1..])
  }

  /** `s.split()`. */
  function Split(s: string): seq<string>
    decreases |s|
  {
    if s == "" then []
    else if IsSpace(s[0]) then Split(s[1..])
    else [s[..TokenLength(s)]] + Split(s[TokenLength(s)..])
  }

  predicate HasPrefix(s: string, prefix: string) {
    |s| >= |prefix| && s[..|prefix|] == prefix
  }

  /** Up to the next equals sign. */
  function UpToEquals(s: string): string {
    if s == "" || s[0] == '=' then "" else [s[0]] + UpToEquals(s[1..])
  }

  /** The last token with the prefix decides. */
  function Field(tokens: seq<string>, prefix: string, default: string): string {
    if tokens == [] then default
    else if HasPrefix(tokens[|tokens| - 1], prefix) then UpToEquals(tokens[|tokens| - 1][|prefix|..])
    else Field(tokens[..|tokens| - 1], prefix, default)
  }

  function RegOrZero(name: string): Option<Reg> {
    if name == "" then Some(ZERO) else Lookup(name)
  }

  function Comment(rs: Reg, rt: Reg, name: string): string {
    "rs=" + Name(rs) + " " + ("rt=" + Name(rt) + " " + ("label=" + name))
  }

  /** The registers `_resolve_branch` reads back. */
  function ReadBack(comment: string): (Option<Reg>, Option<Reg>) {
    (RegOrZero(Field(Split(comment), "rs=", "")), RegOrZero(Field(Split(comment), "rt=", "")))
  }

  lemma {:induction false} SplitToken(t: string, rest: string)
    requires t != "" && NoSpace(t)
    ensures Split(t + " " + rest) == [t] + Split(rest)
  {
    var s := t + " " + rest;
    TokenLengthIs(t, " " + rest);
    assert s == t + (" " + rest);
    assert s[0] == t[0];
    assert s[..|t|] == t && s[|t|..] == " " + rest && (" " + rest)[1..] == rest;
  }

  lemma {:induction false} TokenLengthIs(t: string, rest: string)
    requires NoSpace(t) && rest != "" && IsSpace(rest[0])
    ensures TokenLength(t + rest) == |t|
  {
    if t == "" {
      assert t + rest == rest;
    } else {
      assert (t + rest)[1..] == t[1..] + rest;
      TokenLengthIs(t[1..], rest);
    }
  }

  lemma NamePlain(r: Reg)
    ensures NoSpace(Name(r)) && Name(r) != "" && Lookup(Name(r)) == Some(r) && UpToEquals(Name(r)) == Name(r)
  {
    hide Lookup, UpToEquals;
    NameFound(r, 0);
    NoEquals(Name(r));
  }

  lemma NamesDiffer(a: Reg, b: Reg)
    requires a != b
    ensures Name(a) != Name(b)
  {
    assert |Name(a)| == |Name(b)| == 2 ==> Name(a)[0] != Name(b)[0] || Name(a)[1] != Name(b)[1];
  }

  lemma {:induction false} NameFound(r: Reg, from: nat)
    requires from <= r
    ensures Lookup(Name(r), from) == Some(r)
    decreases r - from
  {
    hide Name;
    if from < r {
      NamesDiffer(from, r);
      NameFound(r, from + 1);
    }
  }

  lemma {:induction false} NoEquals(s: string)
    requires '=' !in s
    ensures UpToEquals(s) == s
  {
    if s != "" {
      NoEquals(s[1..]);
    }
  }

  /** The first token of a label field is none of the register fields. */
  lemma LabelToken(name: string)
    ensures var ts := Split("label=" + name); ts != [] && HasPrefix(ts[0], "label=")
  {
    var s := "label=" + name;
    var n := TokenLength(s);
    TokenAtLeast(s, 6);
    assert s[..n][..6] == s[..6] == "label=";
  }

  lemma {:induction false} TokenAtLeast(s: string, k: nat)
    requires k <= |s| && NoSpace(s[..k])
    ensures TokenLength(s) >= k
  {
    if k > 0 {
      assert !IsSpace(s[..k][0]);
      assert s[1..][..k - 1] == s[..k][1..];
      TokenAtLeast(s[1..], k - 1);
    }
  }

  lemma {:induction false} FieldOfTail(head: seq<string>, tail: seq<string>, prefix: string, default: string)
    ensures Field(head + tail, prefix, default) == Field(tail, prefix, Field(head, prefix, default))
  {
    if tail == [] {
      assert head + tail == head;
    } else {
      assert (head + tail)[..|head + tail| - 1] == head + tail[..|tail| - 1];
      FieldOfTail(head, tail[..|tail| - 1], prefix, default);
    }
  }

  lemma FieldsOfHead(t1: string, t2: string, t3: string)
    requires HasPrefix(t1, "rs=") && HasPrefix(t2, "rt=") && HasPrefix(t3, "label=")
    ensures Field([t1, t2, t3], "rs=", "") == UpToEquals(t1[3..])
    ensures Field([t1, t2, t3], "rt=", "") == UpToEquals(t2[3..])
  {
    hide UpToEquals;
    assert t3[..6][0] == t3[0] && t2[..3][1] == t2[1];
    assert [t1, t2, t3][..2] == [t1, t2] && [t1, t2][..1] == [t1] && [t1][..0] == [];
    assert Field([t1], "rs=", "") == UpToEquals(t1[3..]);
    assert Field([t1, t2], "rs=", "") == Field([t1], "rs=", "");
    assert Field([t1, t2, t3], "rs=", "") == Field([t1, t2], "rs=", "");
  }

  /** What a label adds after its first token. */
  function LabelTail(name: string): seq<string> {
    var ts := Split("label=" + name);
    if ts == [] then [] else ts[1..]
  }

  /** The registers come back exactly when nothing after white space in the
      label overrides them. */
  lemma CommentRoundTripIff(rs: Reg, rt: Reg, name: string)
    ensures ReadBack(Comment(rs, rt, name)) == (Some(rs), Some(rt))
            <==> RegOrZero(Field(LabelTail(name), "rs=", Name(rs))) == Some(rs)
                 && RegOrZero(Field(LabelTail(name), "rt=", Name(rt))) == Some(rt)
  {
    hide Split, Lookup, TokenLength, UpToEquals, RegOrZero, Name, Field;
    var lab := "label=" + name;
    var t1, t2 := "rs=" + Name(rs), "rt=" + Name(rt);
    NamePlain(rs);
    NamePlain(rt);
    SplitToken(t1, t2 + " " + lab);
    SplitToken(t2, lab);
    LabelToken(name);
    assert Comment(rs, rt, name) == t1 + " " + (t2 + " " + lab);
    var first := Split(lab)[0];
    var head := [t1, t2, first];
    assert [t1] + ([t2] + Split(lab)) == head + LabelTail(name);
    assert Split(Comment(rs, rt, name)) == head + LabelTail(name);
    assert first[0] == 'l';
    assert t1[3..] == Name(rs) && t2[3..] == Name(rt);
    FieldOfTail(head, LabelTail(name), "rs=", "");
    FieldOfTail(head, LabelTail(name), "rt=", "");
    FieldsOfHead(t1, t2, first);
  }

  lemma OneToken(t: string)
    requires t != "" && NoSpace(t)
    ensures Split(t) == [t]
  {
    TokenAtLeast(t, |t|) by { assert t[..|t|] == t; }
    assert t[..|t|] == t && t[|t|..] == "";
    assert Split("") == [];
    assert [t] + [] == [t];
  }

  /** A label without white space is always safe. */
  lemma PlainLabelRoundTrips(rs: Reg, rt: Reg, name: string)
    requires NoSpace(name)
    ensures ReadBack(Comment(rs, rt, name)) == (Some(rs), Some(rt))
  {
    hide Lookup, Name, UpToEquals;
    var lab := "label=" + name;
    OneToken(lab);
    assert LabelTail(name) == [];
    NamePlain(rs);
    NamePlain(rt);
    CommentRoundTripIff(rs, rt, name);
  }

  /** A blank in a label can change the registers of its branches. */
  lemma BlankInLabelChangesRegister(rt: Reg)
    ensures ReadBack(Comment(T0, rt, "x rs=T1")) != (Some(T0), Some(rt))
  {
    hide Lookup, TokenLength, Split, Comment, ReadBack;
    CommentRoundTripIff(T0, rt, "x rs=T1");
    assert "label=x" + " " + "rs=T1" == "label=" + "x rs=T1";
    SplitToken("label=x", "rs=T1");
    OneToken("rs=T1");
    assert LabelTail("x rs=T1") == ["rs=T1"];
    assert "rs=T1"[3..] == "T1" == Name(T1);
    NamePlain(T1);
  }
}
