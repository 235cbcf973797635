/** Types shared by the whole model. */
module Common {

  /** The source's `uint16_t`. Arithmetic on it is written out modulo 2^16 where it can wrap. */
  type uint16 = x: int | 0 <= x < 0x1_0000

  datatype Option<+T> = None | Some(value: T)

  /** `std::to_string` of a non-negative number. */
  function Decimal(n: nat): string {
    (if n < 10 then "" else Decimal(n / 10)) + [('0' as int + n % 10) as char]
  }

  function IntText(i: int): string {
    if i < 0 then "-" + Decimal(-i) else Decimal(i)
  }

  function Max(a: int, b: int): int {
    if a < b then b else a
  }

  /** The number a text of digits stands for. */
  function NumberOf(digits: string): int {
    if digits == "" then 0 else 10 * NumberOf(digits[..|digits| - 1]) + (digits[|digits| - 1] as int - '0' as int)
  }

  lemma {:induction false} DecimalReadsBack(n: nat)
    ensures NumberOf(Decimal(n)) == n
    ensures forall i :: 0 <= i < |Decimal(n)| ==> '0' <= Decimal(n)[i] <= '9'
    ensures |Decimal(n)| > 1 ==> Decimal(n)[0] != '0'
    decreases n
  {
    var front := if n < 10 then "" else Decimal(n / 10);
    assert Decimal(n)[..|front|] == front;
    if n >= 10 {
      DecimalReadsBack(n / 10);
      assert Decimal(n)[0] == front[0];
      if |front| == 1 {
        assert NumberOf(front) == 10 * NumberOf(front[..0]) + (front[0] as int - '0' as int);
      }
    }
  }

  /** `std::to_string` writes the digits of the number, behind a minus sign when it is negative. */
  lemma IntTextReadsBack(i: int)
    ensures i >= 0 ==> NumberOf(IntText(i)) == i
    ensures i < 0 ==> IntText(i) != "" && IntText(i)[0] == '-' && NumberOf(IntText(i)[1..]) == -i
  {
    DecimalReadsBack(if i < 0 then -i else i);
    if i < 0 {
      assert IntText(i)[1..] == Decimal(-i);
    }
  }
}
