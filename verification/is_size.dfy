/** The `is_size` predicate plugin: a rule argument such as `>30`, `<30` or
    `=30` is compared with the size of the file in bytes. */
module IsSize {
  import opened Common

  /** The comparison operators a `compare` argument may start with. */
  const Operators: seq<char> := ['>', '<', '=']

  predicate IsDigit(c: char) { '0' <= c <= '9' }

  predicate AllDigits(s: string) {
    forall k :: 0 <= k < |s| ==> IsDigit(s[k])
  }

  /** The texts `int()` accepts here: an optional sign and at least one ASCII digit. */
  predicate IsIntLiteral(s: string) {
    if |s| > 0 && (s[0] == '+' || s[0] == '-') then |s| > 1 && AllDigits(s[1..])
    else |s| > 0 && AllDigits(s)
  }

  function DigitsValue(s: string): (n: nat)
    requires AllDigits(s)
  {
    if s == [] then 0 else DigitsValue(s[..|s| - 1]) * 10 + (s[|s| - 1] as int - '0' as int)
  }

  /** Python's `int(s)` on a string, `None` where it raises `ValueError`. */
  function ParseInt(s: string): (r: Option<int>)
    ensures r.Some? <==> IsIntLiteral(s)
    ensures r.Some? && s[0] == '-' ==> r.value <= 0
    ensures r.Some? && s[0] != '-' ==> r.value >= 0
  {
    if |s| > 0 && (s[0] == '+' || s[0] == '-') then
      if |s| > 1 && AllDigits(s[1..]) then
        Some(if s[0] == '-' then -(DigitsValue(s[1..]) as int) else DigitsValue(s[1..]) as int)
      else None
    else if |s| > 0 && AllDigits(s) then Some(DigitsValue(s))
    else None
  }

  /** `str(n)` for a natural number. */
  function Decimal(n: nat): (s: string)
    ensures |s| > 0 && AllDigits(s)
  {
    var d := ['0' + (n % 10) as char];
    if n < 10 then d else Decimal(n / 10) + d
  }

  /** `str(n)` for any integer. */
  function IntString(n: int): (s: string) {
    if n < 0 then "-" + Decimal(-n) else Decimal(n)
  }

  lemma {:induction false} DecimalValue(n: nat)
    ensures DigitsValue(Decimal(n)) == n
  {
    var s := Decimal(n);
    if n >= 10 {
      DecimalValue(n / 10);
      assert s[..|s| - 1] == Decimal(n / 10);
    }
  }

  /** `int(str(n)) == n`. */
  lemma ParseIntString(n: int)
    ensures ParseInt(IntString(n)) == Some(n)
  {
    if n < 0 {
      DecimalValue(-n);
      assert IntString(n)[1..] == Decimal(-n);
    } else {
      DecimalValue(n);
    }
  }

  /** `parse_compare`: the pair (size, operator). A text of one character or
      less, or one that does not start with an operator, gives (None, None); with
      an operator, the size is the integer the rest spells, or None. */
  function ParseCompare(compare: string): (r: (Option<int>, Option<char>))
    ensures |compare| <= 1 ==> r == (None, None)
    ensures |compare| > 1 && compare[0] !in Operators ==> r == (None, None)
    ensures |compare| > 1 && compare[0] in Operators ==>
              r.1 == Some(compare[0]) && r.0 == ParseInt(compare[1..])
    ensures r.1.Some? ==> r.1.value in Operators
  {
    if |compare| > 1 && compare[0] in Operators then (ParseInt(compare[1..]), Some(compare[0]))
    else (None, None)
  }

  /** Writing a comparison and parsing it back gives the same size and operator. */
  lemma ParseCompareRoundTrip(op: char, n: int)
    requires op in Operators
    ensures ParseCompare([op] + IntString(n)) == (Some(n), Some(op))
  {
    var c := [op] + IntString(n);
    assert c[1..] == IntString(n);
    ParseIntString(n);
  }

  /** `syntax_test`: `fileSize` is what `os.path.getsize` returned, None where it raised. */
  function SyntaxTest(compare: string, fileSize: Option<int>): (b: bool)
    ensures ParseCompare(compare).0.None? || ParseCompare(compare).1.None? || fileSize.None? ==> !b
    ensures ParseCompare(compare).0.Some? && fileSize.Some? ==>
              var size, fs := ParseCompare(compare).0.value, fileSize.value;
              (compare[0] == '>' ==> (b <==> fs > size)) &&
              (compare[0] == '<' ==> (b <==> fs < size)) &&
              (compare[0] == '=' ==> (b <==> fs == size))
  {
    var (size, operator) := ParseCompare(compare);
    if size.Some? && operator.Some? && fileSize.Some? then
      match operator.value
      case '>' => fileSize.value > size.value
      case '<' => fileSize.value < size.value
      case '=' => fileSize.value == size.value
      case _ => false
    else false
  }

  /** Example: a 40-byte file passes `>30` and fails `<30` and `=30`. */
  lemma SyntaxTestExample()
    ensures SyntaxTest(">30", Some(40)) && !SyntaxTest("<30", Some(40)) && !SyntaxTest("=30", Some(40))
    ensures !SyntaxTest(">3x", Some(40)) && !SyntaxTest("!30", Some(40)) && !SyntaxTest(">30", None)
  {
    ParseIntString(30);
    assert IntString(30) == "30";
    assert ParseInt("3x") == None by { assert !IsDigit("3x"[1]); }
  }
}
