/** Character strings as the server uses them: decimal printing (`sprintf("%d")` and
    `lexical_cast`), `std::stoi`, substring search and `std::getline`. */
module Text {

  datatype Option<+T> = None | Some(value: T)

  // ---------- decimal numbers ----------

  predicate IsDigit(c: char) {
    '0' <= c <= '9'
  }

  predicate AllDigits(s: string) {
    forall i :: 0 <= i < |s| ==> IsDigit(s[i])
  }

  /** The number a run of digits stands for, most significant digit first. */
  function Value(digits: string): nat
    requires AllDigits(digits)
  {
    if digits == "" then 0
    else 10 * Value(digits[..|digits| - 1]) + (digits[|digits| - 1] as int - '0' as int)
  }

  function Decimal(n: nat): (s: string)
    ensures s != "" && AllDigits(s)
  {
    if n < 10 then [('0' as int + n) as char] else Decimal(n / 10) + Decimal(n % 10)
  }

  function IntToString(n: int): string {
    if n < 0 then "-" + Decimal(-n) else Decimal(n)
  }

  lemma {:induction false} DecimalValue(n: nat)
    ensures Value(Decimal(n)) == n
  {
    if n < 10 {
    } else {
      DecimalValue(n / 10);
      var high, low := Decimal(n / 10), Decimal(n % 10);
      assert low == [('0' as int + n % 10) as char];
      assert (high + low)[..|high + low| - 1] == high;
    }
  }

  // ---------- std::stoi ----------

  predicate IsSpace(c: char) {
    c == ' ' || 9 <= c as int <= 13
  }

  function SkipSpace(s: string): string {
    if s != "" && IsSpace(s[0]) then SkipSpace(s[1..]) else s
  }

  /** The longest prefix of digits. */
  function DigitRun(s: string): (d: string)
    ensures AllDigits(d) && d <= s
  {
    if s != "" && IsDigit(s[0]) then [s[0]] + DigitRun(s[1..]) else ""
  }

  const INT_MAX := 0x7fff_ffff
  const INT_MIN := -0x8000_0000

  /** `std::stoi`: None where the library throws (no digits, or outside a 32-bit int). */
  function Stoi(s: string): (r: Option<int>)
    ensures r.Some? ==> INT_MIN <= r.value <= INT_MAX
  {
    var body := SkipSpace(s);
    var negative := body != "" && body[0] == '-';
    var rest := if body != "" && (body[0] == '-' || body[0] == '+') then body[1..] else body;
    SignedInt(negative, DigitRun(rest))
  }

  function SignedInt(negative: bool, digits: string): Option<int>
    requires AllDigits(digits)
  {
    if digits == "" then None
    else
      var magnitude: int := Value(digits);
      var v := if negative then -magnitude else magnitude;
      if INT_MIN <= v <= INT_MAX then Some(v) else None
  }

  lemma {:induction false} DigitRunStops(digits: string, rest: string)
    requires AllDigits(digits)
    requires rest == "" || !IsDigit(rest[0])
    ensures DigitRun(digits + rest) == digits
  {
    if digits == "" {
      assert digits + rest == rest;
    } else {
      DigitRunStops(digits[1..], rest);
      assert (digits + rest)[1..] == digits[1..] + rest;
    }
  }

  /** Reading back a printed number gives the number, whatever non-digit follows it. */
  lemma StoiReadsInt(n: int, rest: string)
    requires INT_MIN <= n <= INT_MAX
    requires rest == "" || !IsDigit(rest[0])
    ensures Stoi(IntToString(n) + rest) == Some(n)
  {
    var m: nat := if n < 0 then -n else n;
    StoiReadsSigned(n < 0, Decimal(m), rest);
    DecimalValue(m);
  }

  lemma StoiReadsSigned(negative: bool, digits: string, rest: string)
    requires digits != "" && AllDigits(digits)
    requires rest == "" || !IsDigit(rest[0])
    ensures Stoi((if negative then "-" + digits else digits) + rest) == SignedInt(negative, digits)
  {
    DigitRunStops(digits, rest);
    hide Value, SignedInt, DigitRun;
    var s := (if negative then "-" + digits else digits) + rest;
    assert s[0] == (if negative then '-' else digits[0]);
    assert negative ==> s[1..] == digits + rest;
  }

  // ---------- substring search ----------

  predicate OccursAt(s: string, pattern: string, i: int) {
    0 <= i && i + |pattern| <= |s| && s[i..i + |pattern|] == pattern
  }

  predicate Contains(s: string, pattern: string) {
    exists i :: 0 <= i <= |s| && OccursAt(s, pattern, i)
  }

  /** `std::string::find`: the first occurrence, or None for `npos`. */
  method Find(s: string, pattern: string) returns (at: Option<nat>)
    ensures at.Some? <==> Contains(s, pattern)
    ensures at.Some? ==> OccursAt(s, pattern, at.value)
    ensures at.Some? ==> forall i :: 0 <= i < at.value ==> !OccursAt(s, pattern, i)
  {
    for i := 0 to |s| + 1
      invariant forall k :: 0 <= k < i ==> !OccursAt(s, pattern, k)
    {
      if i + |pattern| <= |s| && s[i..i + |pattern|] == pattern {
        assert OccursAt(s, pattern, i);
        return Some(i);
      }
    }
    return None;
  }

  // ---------- std::getline ----------

  /** The lines `getline` yields: pieces between newlines, with no empty last piece. */
  function Lines(s: string): (lines: seq<string>)
    ensures s != "" ==> lines != []
  {
    if s == "" then []
    else if '\n' !in s then [s]
    else
      var n := LineEnd(s);
      [s[..n]] + Lines(s[n + 1..])
  }

  function LineEnd(s: string): (n: nat)
    requires '\n' in s
    ensures n < |s| && s[n] == '\n' && '\n' !in s[..n]
    ensures forall k :: 0 <= k < n ==> s[k] != '\n'
  {
    if s[0] == '\n' then 0 else
      assert s == [s[0]] + s[1..];
      var n := 1 + LineEnd(s[1..]);
      assert s[..n] == [s[0]] + s[1..][..n - 1];
      n
  }

  lemma LinesCons(line: string, rest: string)
    requires '\n' !in line
    ensures Lines(line + "\n" + rest) == [line] + Lines(rest)
  {
    var s := line + "\n" + rest;
    assert s[|line|] == '\n';
    var n := LineEnd(s);
    assert forall k :: 0 <= k < |line| ==> s[k] == line[k];
    assert s[..n] == line && s[n + 1..] == rest;
  }

  lemma LinesOfOne(line: string)
    requires '\n' !in line
    ensures Lines(line) == if line == "" then [] else [line]
  {
  }
}
