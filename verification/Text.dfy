/** Decimal numbers in strings, and the block keys built from them. */
module Text {
  import opened Bytes

  function Digits(s: string): Option<nat> {
    if s == [] then Some(0)
    else
      var d := s[|s| - 1];
      var high := Digits(s[..|s| - 1]);
      if '0' <= d <= '9' && high.Some? then Some(10 * high.value + (d as int - '0' as int)) else None
  }

  /** Decimal digits of n. */
  function Decimal(n: nat): (s: string)
    ensures s != [] && forall i :: 0 <= i < |s| ==> '0' <= s[i] <= '9'
  {
    (if n < 10 then [] else Decimal(n / 10)) + [('0' as int + n % 10) as char]
  }

  lemma {:induction false} DigitsOfDecimal(n: nat)
    ensures Digits(Decimal(n)) == Some(n)
  {
    var s := Decimal(n);
    if n < 10 {
      assert s[..|s| - 1] == [];
    } else {
      DigitsOfDecimal(n / 10);
      assert s[..|s| - 1] == Decimal(n / 10);
    }
  }

  /** `seq:<number>` or `num:<number>` */
  function KeyOf(kind: string, n: nat): string {
    kind + Decimal(n)
  }

  /** For instance. */
  lemma KeyExample()
    ensures KeyOf("seq:", 1204) == "seq:1204" && KeyOf("num:", 0) == "num:0"
  {
    assert Decimal(1) == "1";
    assert Decimal(12) == "12";
    assert Decimal(120) == "120";
    assert Decimal(1204) == "1204";
    assert Decimal(0) == "0";
  }

  /** Different blocks have different keys. */
  lemma KeyInjective(kind: string, n: nat, kind': string, n': nat)
    requires |kind| == |kind'| && KeyOf(kind, n) == KeyOf(kind', n')
    ensures kind == kind' && n == n'
  {
    var k := KeyOf(kind, n);
    assert k[..|kind|] == kind && k[|kind|..] == Decimal(n);
    assert k[..|kind|] == kind' && k[|kind|..] == Decimal(n');
    DigitsOfDecimal(n);
    DigitsOfDecimal(n');
  }
}
