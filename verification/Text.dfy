/** The string operations of kernel/util/string_piece.cc that HTTP framing uses.  A slice is a
    string and a pointer into it an index; end() is the length. */
module Text {

  predicate At(s: string, i: int, pattern: string) {
    0 <= i && i + |pattern| <= |s| && s[i..i + |pattern|] == pattern
  }

  /** The first occurrence of the pattern, or the length. */
  function Find(s: string, pattern: string): (i: nat)
    requires pattern != ""
    ensures i <= |s| && (i < |s| ==> At(s, i, pattern))
    ensures forall j :: 0 <= j < i ==> !At(s, j, pattern)
    ensures i == |s| ==> forall j :: !At(s, j, pattern)
  {
    if |s| < |pattern| then |s|
    else if s[..|pattern|] == pattern then 0
    else
      var rest := Find(s[1..], pattern);
      assert forall j :: j > 0 && At(s, j, pattern) ==> At(s[1..], j - 1, pattern) by { Shifted(s, pattern); }
      assert rest < |s| - 1 ==> At(s, rest + 1, pattern) by { ShiftedBack(s, rest, pattern); }
      rest + 1
  }

  lemma Shifted(s: string, pattern: string)
    requires s != ""
    ensures forall j :: j > 0 && At(s, j, pattern) ==> At(s[1..], j - 1, pattern)
  {
    forall j | j > 0 && At(s, j, pattern)
      ensures At(s[1..], j - 1, pattern)
    {
      assert s[1..][j - 1..j - 1 + |pattern|] == s[j..j + |pattern|];
    }
  }

  lemma ShiftedBack(s: string, j: nat, pattern: string)
    requires s != ""
    ensures At(s[1..], j, pattern) ==> At(s, j + 1, pattern)
  {
    if At(s[1..], j, pattern) {
      assert s[1..][j..j + |pattern|] == s[j + 1..j + 1 + |pattern|];
    }
  }

  lemma FindIs(s: string, pattern: string, i: nat)
    requires pattern != "" && At(s, i, pattern) && forall j :: 0 <= j < i ==> !At(s, j, pattern)
    ensures Find(s, pattern) == i
  {
  }

  lemma AtPrefix(s: string, more: string, j: nat, pattern: string)
    requires j + |pattern| <= |s|
    ensures At(s + more, j, pattern) <==> At(s, j, pattern)
  {
    assert (s + more)[j..j + |pattern|] == s[j..j + |pattern|];
  }

  /** What follows does not move the first occurrence. */
  lemma FindExtend(s: string, more: string, pattern: string)
    requires pattern != "" && Find(s, pattern) < |s|
    ensures Find(s + more, pattern) == Find(s, pattern)
  {
    var i := Find(s, pattern);
    forall j | 0 <= j <= i
      ensures At(s + more, j, pattern) <==> At(s, j, pattern)
    {
      AtPrefix(s, more, j, pattern);
    }
    FindIs(s + more, pattern, i);
  }

  lemma AtSuffix(s: string, k: nat, i: nat, pattern: string)
    requires k <= i && k <= |s|
    ensures At(s, i, pattern) <==> At(s[k..], i - k, pattern)
  {
    if i + |pattern| <= |s| {
      assert s[k..][i - k..i - k + |pattern|] == s[i..i + |pattern|];
    }
  }

  /** The search may skip a stretch without occurrences. */
  lemma FindSuffix(s: string, k: nat, pattern: string)
    requires pattern != "" && k <= |s| && forall j :: 0 <= j < k ==> !At(s, j, pattern)
    ensures Find(s, pattern) == k + Find(s[k..], pattern)
  {
    hide At, Find;
    var i := Find(s[k..], pattern);
    forall j | k <= j < k + i
      ensures !At(s, j, pattern)
    {
      AtSuffix(s, k, j, pattern);
    }
    if i < |s[k..]| {
      AtSuffix(s, k, k + i, pattern);
      FindIs(s, pattern, k + i);
    }
  }

  // -------------------------------------------------------------------- trimming

  predicate IsSpace(c: char) {
    c == ' ' || c == '\t' || c == '\n' || c == '\r' || c == 11 as char || c == 12 as char
  }

  function TrimLeft(s: string): string {
    if s != "" && IsSpace(s[0]) then TrimLeft(s[1..]) else s
  }

  function TrimRight(s: string): string {
    if s != "" && IsSpace(s[|s| - 1]) then TrimRight(s[..|s| - 1]) else s
  }

  function Trim(s: string): string {
    TrimRight(TrimLeft(s))
  }

  predicate Trimmed(s: string) {
    s != "" ==> !IsSpace(s[0]) && !IsSpace(s[|s| - 1])
  }

  method TrimSpace(s: string) returns (t: string)
    ensures t == Trim(s)
  {
    t := s;
    var pos := 0;
    while pos < |s|
      invariant 0 <= pos <= |s| && t == s[pos..] && TrimLeft(t) == TrimLeft(s)
      decreases |s| - pos
    {
      if !IsSpace(t[0]) {
        break;
      }
      t := t[1..];
      pos := pos + 1;
    }
    ghost var left := t;
    assert left == TrimLeft(s);
    while t != ""
      invariant TrimRight(t) == TrimRight(left)
      decreases |t|
    {
      if !IsSpace(t[|t| - 1]) {
        break;
      }
      t := t[..|t| - 1];
    }
  }

  /** Trimming takes spaces from both ends and leaves no more of them. */
  lemma {:induction false} TrimRightSpec(s: string)
    ensures TrimRight(s) <= s && (TrimRight(s) != "" ==> !IsSpace(TrimRight(s)[|TrimRight(s)| - 1]))
    ensures forall i :: |TrimRight(s)| <= i < |s| ==> IsSpace(s[i])
  {
    if s != "" && IsSpace(s[|s| - 1]) {
      TrimRightSpec(s[..|s| - 1]);
    }
  }

  lemma {:induction false} TrimLeftSpec(s: string) returns (k: nat)
    ensures k <= |s| && TrimLeft(s) == s[k..] && (k < |s| ==> !IsSpace(s[k]))
    ensures forall i :: 0 <= i < k ==> IsSpace(s[i])
  {
    if s != "" && IsSpace(s[0]) {
      k := TrimLeftSpec(s[1..]);
      k := k + 1;
      assert forall i :: 0 < i < k ==> s[i] == s[1..][i - 1];
    } else {
      k := 0;
    }
  }

  lemma TrimIsTrimmed(s: string) returns (k: nat)
    ensures Trimmed(Trim(s)) && k + |Trim(s)| <= |s| && Trim(s) == s[k..k + |Trim(s)|]
    ensures forall i :: (0 <= i < k || k + |Trim(s)| <= i < |s|) ==> IsSpace(s[i])
  {
    k := TrimLeftSpec(s);
    TrimRightSpec(s[k..]);
    assert forall i :: k <= i < |s| ==> s[i] == s[k..][i - k];
  }

  lemma TrimKeeps(t: string)
    requires Trimmed(t)
    ensures Trim(t) == t && Trim(" " + t) == t
  {
    assert (" " + t)[1..] == t;
  }

  /** Blank, tab, line feed, vertical tab, form feed and carriage return go, at either end. */
  lemma SpacesGo(t: string, c: char)
    requires Trimmed(t) && c in {' ', '\t', '\n', 11 as char, 12 as char, '\r'}
    ensures Trim([c] + t) == t && Trim(t + [c]) == t
  {
    assert IsSpace(c);
    assert TrimLeft(t) == t && TrimRight(t) == t;
    assert ([c] + t)[1..] == t && (t + [c])[..|t|] == t;
    if t == "" {
      assert t + [c] == [c] && [c] + t == [c] && [c][1..] == "";
      assert TrimLeft([c]) == TrimLeft("") == "";
    } else {
      assert (t + [c])[0] == t[0];
    }
  }

  // --------------------------------------------------------------------- numbers

  predicate IsDigit(c: char) {
    '0' <= c <= '9'
  }

  function Digit(c: char): nat
    requires IsDigit(c)
  {
    c as nat - '0' as nat
  }

  predicate AllDigits(s: string) {
    forall i :: 0 <= i < |s| ==> IsDigit(s[i])
  }

  /** The number that a string of digits denotes. */
  function Value(s: string): nat
    requires AllDigits(s)
  {
    if s == "" then 0 else Value(s[..|s| - 1]) * 10 + Digit(s[|s| - 1])
  }

  /** ParseInt: the number at the start of the slice, and where it ends.  The number is not
      reduced to the width of an int. */
  method ParseInt(s: string) returns (number: nat, pos: nat)
    ensures pos <= |s| && AllDigits(s[..pos]) && (pos < |s| ==> !IsDigit(s[pos]))
    ensures number == Value(s[..pos])
  {
    number, pos := 0, 0;
    while pos < |s|
      invariant pos <= |s| && AllDigits(s[..pos]) && number == Value(s[..pos])
    {
      if !IsDigit(s[pos]) {
        break;
      }
      assert s[..pos + 1][..pos] == s[..pos];
      number := number * 10 + Digit(s[pos]);
      pos := pos + 1;
    }
  }

  lemma ValueOfDigits()
    ensures Value("120") == 120 && !AllDigits("1x") && !AllDigits("-1")
  {
    assert "120"[..2] == "12" && "12"[..1] == "1" && "1"[..0] == "";
    assert Value("1") == 1 && Value("12") == 12;
    assert "1x"[1] == 'x' && "-1"[0] == '-';
  }

  /** std::to_string of a non-negative number. */
  function Decimal(n: nat): (s: string)
    ensures s != "" && AllDigits(s)
  {
    var digit := [('0' as nat + n % 10) as char];
    if n < 10 then digit else Decimal(n / 10) + digit
  }

  lemma {:induction false} DecimalValue(n: nat)
    ensures Value(Decimal(n)) == n
  {
    var d := Decimal(n);
    if n < 10 {
      assert d[..0] == "";
    } else {
      DecimalValue(n / 10);
      assert d[..|d| - 1] == Decimal(n / 10);
    }
  }
}
