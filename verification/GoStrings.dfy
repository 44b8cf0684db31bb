/** The string functions of Go's standard library that the agent relies on. */
module GoStrings {

  // unicode.IsSpace
  predicate IsSpace(c: char) {
    var x := c as int;
    || 0x09 <= x <= 0x0d || x == 0x20 || x == 0x85 || x == 0xa0 || x == 0x1680
    || 0x2000 <= x <= 0x200a || x == 0x2028 || x == 0x2029 || x == 0x202f || x == 0x205f || x == 0x3000
  }

  function TrimLeft(s: string, cut: char -> bool): string {
    if s != "" && cut(s[0]) then TrimLeft(s[1..], cut) else s
  }

  function TrimRight(s: string, cut: char -> bool): string {
    if s != "" && cut(s[|s| - 1]) then TrimRight(s[..|s| - 1], cut) else s
  }

  function TrimSpace(s: string): string {
    TrimRight(TrimLeft(s, IsSpace), IsSpace)
  }

  // strings.ToLower on ASCII letters; other characters are left alone.
  function ToLower(s: string): (r: string)
    ensures |r| == |s|
  {
    if s == "" then ""
    else [if 'A' <= s[0] <= 'Z' then (s[0] as int + 32) as char else s[0]] + ToLower(s[1..])
  }

  predicate Contains(s: string, t: string) {
    exists i :: 0 <= i <= |s| && t <= s[i..]
  }

  // ---- What trimming and lower-casing mean ----

  lemma {:induction false} TrimLeftMeans(s: string, cut: char -> bool) returns (ahead: string)
    ensures s == ahead + TrimLeft(s, cut) && forall c :: c in ahead ==> cut(c)
    ensures TrimLeft(s, cut) != "" ==> !cut(TrimLeft(s, cut)[0])
  {
    if s != "" && cut(s[0]) {
      var more := TrimLeftMeans(s[1..], cut);
      ahead := [s[0]] + more;
    } else {
      ahead := "";
    }
  }

  lemma {:induction false} TrimRightMeans(s: string, cut: char -> bool) returns (behind: string)
    ensures s == TrimRight(s, cut) + behind && forall c :: c in behind ==> cut(c)
    ensures TrimRight(s, cut) != "" ==> !cut(TrimRight(s, cut)[|TrimRight(s, cut)| - 1])
  {
    if s != "" && cut(s[|s| - 1]) {
      var more := TrimRightMeans(s[..|s| - 1], cut);
      behind := more + [s[|s| - 1]];
    } else {
      behind := "";
    }
  }

  /** TrimSpace takes white space off both ends and nothing else: what it takes is all white
      space, and what is left neither starts nor ends with any. */
  lemma TrimSpaceMeans(s: string) returns (ahead: string, behind: string)
    ensures s == ahead + TrimSpace(s) + behind && forall c :: c in ahead + behind ==> IsSpace(c)
    ensures TrimSpace(s) != "" ==> !IsSpace(TrimSpace(s)[0]) && !IsSpace(TrimSpace(s)[|TrimSpace(s)| - 1])
  {
    hide TrimLeft, TrimRight, IsSpace;
    ahead := TrimLeftMeans(s, IsSpace);
    behind := TrimRightMeans(TrimLeft(s, IsSpace), IsSpace);
  }

  /** Lower-casing changes the letters A to Z, each on its own. */
  lemma {:induction false} ToLowerAt(s: string, i: nat)
    requires i < |s|
    ensures ToLower(s)[i] == if 'A' <= s[i] <= 'Z' then (s[i] as int - 'A' as int + 'a' as int) as char else s[i]
    decreases i
  {
    if i > 0 { ToLowerAt(s[1..], i - 1); }
  }

  // ---- Decimal numbers ----

  const MAX_INT: int := 0x7fff_ffff_ffff_ffff

  predicate IsDigit(c: char) {
    '0' <= c <= '9'
  }

  function Value(s: string): nat
    requires forall i :: 0 <= i < |s| ==> IsDigit(s[i])
  {
    if s == "" then 0
    else
      assert IsDigit(s[|s| - 1]);
      10 * Value(s[..|s| - 1]) + (s[|s| - 1] as int - '0' as int)
  }

  // strconv.Itoa of a non-negative number.
  function Itoa(n: nat): (s: string)
    ensures s != "" && forall i :: 0 <= i < |s| ==> IsDigit(s[i])
  {
    var last := [('0' as int + n % 10) as char];
    if n < 10 then last else Itoa(n / 10) + last
  }

  // Digits as Itoa writes them: no leading zero.
  predicate Canonical(s: string) {
    s != "" && (forall i :: 0 <= i < |s| ==> IsDigit(s[i])) && (s[0] == '0' ==> |s| == 1)
  }

  lemma {:induction false} ValueOfItoa(n: nat)
    ensures Value(Itoa(n)) == n && Canonical(Itoa(n))
    ensures n > 0 ==> Itoa(n)[0] != '0'
  {
    if n >= 10 {
      ValueOfItoa(n / 10);
      assert Itoa(n)[..|Itoa(n)| - 1] == Itoa(n / 10);
    } else {
      assert Itoa(n)[..0] == "";
    }
  }

  lemma {:induction false} CanonicalPositive(s: string)
    requires Canonical(s) && s[0] != '0'
    ensures Value(s) > 0
  {
    if |s| > 1 { CanonicalPositive(s[..|s| - 1]); }
  }

  /** A canonical decimal is the one Itoa writes for its value, so two canonical
      decimals of equal value are the same string. */
  lemma {:induction false} ItoaOfValue(s: string)
    requires Canonical(s)
    ensures Itoa(Value(s)) == s
  {
    if |s| > 1 {
      var front := s[..|s| - 1];
      ItoaOfValue(front);
      CanonicalPositive(front);
      assert s == front + [s[|s| - 1]];
    } else {
      assert s[..0] == "";
      assert Value(s[..0]) == 0;
    }
  }
}
