/** Scalars as the genomes storage writes them into HDF5 datasets, and the
    bits of Python semantics the store relies on: truthiness and the `%d` /
    `%s` renderings used in FASTA headers. */
module PyValues {
  import opened Outcomes

  /** A scalar an HDF5 dataset can hold. Python's `None` cannot be stored;
      an input that may be `None` is an `Option<Value>`. */
  datatype Value = Int(i: int) | Str(s: string) | Bool(b: bool)

  /** Python truthiness of a value that may be `None`. */
  predicate Truthy(v: Option<Value>)
  {
    match v
    case None => false
    case Some(Int(i)) => i != 0
    case Some(Str(s)) => s != ""
    case Some(Bool(b)) => b
  }

  predicate IsDigit(c: char) { '0' <= c <= '9' }

  function DigitChar(d: nat): (c: char)
    requires d < 10
    ensures IsDigit(c) && c as int - '0' as int == d
  {
    ['0', '1', '2', '3', '4', '5', '6', '7', '8', '9'][d]
  }

  /** The decimal digits of a natural number, most significant first. */
  function NatToString(n: nat): string
  {
    if n < 10 then [DigitChar(n)] else NatToString(n / 10) + [DigitChar(n % 10)]
  }

  /** The number a string of decimal digits denotes. */
  function DigitsValue(r: string): int
  {
    if r == [] then 0 else 10 * DigitsValue(r[..|r| - 1]) + (r[|r| - 1] as int - '0' as int)
  }

  /** The rendering is a non-empty run of digits, without a leading zero
      unless the number is 0, that denotes the number. */
  lemma {:induction false} NatToStringDigits(n: nat)
    ensures var r := NatToString(n);
            && |r| > 0
            && (forall k :: 0 <= k < |r| ==> IsDigit(r[k]))
            && DigitsValue(r) == n
            && (n > 0 ==> r[0] != '0')
  {
    if n >= 10 {
      NatToStringDigits(n / 10);
      var p, r := NatToString(n / 10), NatToString(n);
      assert r == p + [DigitChar(n % 10)];
      assert r[..|r| - 1] == p;
    }
  }

  /** Python's `'%d' % i`: a minus sign for negative numbers, then the digits. */
  function IntToString(i: int): string
  {
    if i < 0 then "-" + NatToString(-i) else NatToString(i)
  }

  /** Different numbers render differently. */
  lemma IntToStringInjective(a: int, b: int)
    requires IntToString(a) == IntToString(b)
    ensures a == b
  {
    var ra, rb := IntToString(a), IntToString(b);
    NatToStringDigits(if a < 0 then -a else a);
    NatToStringDigits(if b < 0 then -b else b);
    // the sign is visible in the first character
    assert (a < 0) == (ra[0] == '-') && (b < 0) == (rb[0] == '-');
    if a < 0 {
      assert NatToString(-a) == ra[1..] && NatToString(-b) == rb[1..];
    }
  }

  /** Python's `'%s' % v` for a stored scalar. */
  function Show(v: Value): string
  {
    match v
    case Int(i) => IntToString(i)
    case Str(s) => s
    case Bool(b) => if b then "True" else "False"
  }
}
