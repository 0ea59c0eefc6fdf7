/** The four-colour codes players are identified by on the table: a code is
    four base-4 digits, most significant first, and stands for the numbers
    1 to 256. */
module ColorCode {
  import opened Wrappers

  datatype CodeError = WrongLength | DigitOutOfRange | IdOutOfRange

  const Digits: nat := 4
  const MaxId: int := 256

  predicate IsDigit4(d: int) {
    0 <= d <= 3
  }

  /** A code the conversion accepts: four digits in [0, 3]. */
  predicate ValidCode(c: seq<int>) {
    |c| == Digits && forall i :: 0 <= i < |c| ==> IsDigit4(c[i])
  }

  /** The id a valid code stands for. */
  function IdOf(c: seq<int>): int
    requires |c| == Digits
  {
    64 * c[0] + 16 * c[1] + 4 * c[2] + c[3] + 1
  }

  /** The code of an id in [1, 256]. */
  function CodeOf(id: int): seq<int>
    requires 1 <= id <= MaxId
  {
    var v := id - 1;
    [Shifted(v, 3) % 4, Shifted(v, 2) % 4, Shifted(v, 1) % 4, v % 4]
  }

  /** `v` divided by 4, `n` times over. */
  function Shifted(v: int, n: nat): int {
    if n == 0 then v else Shifted(v, n - 1) / 4
  }

  /** The place value of the `n`-th base-4 digit from the right. */
  function Pow4(n: nat): (p: nat)
    ensures p >= 1
  {
    if n == 0 then 1 else 4 * Pow4(n - 1)
  }

  /** The digits `c[i..]` read as a base-4 number. */
  function SuffixValue(c: seq<int>, i: nat): int
    requires i <= |c|
    decreases |c| - i
  {
    if i == |c| then 0 else c[i] * Pow4(|c| - 1 - i) + SuffixValue(c, i + 1)
  }

  /** `ConvertBase4ToIntId`: the length is checked first, then the digits
      from the least significant one up, accumulating each times its place
      value; the sum is shifted up by one. */
  method ToIntId(colorCode: seq<int>) returns (r: Result<int, CodeError>)
    ensures |colorCode| != Digits ==> r == Err(WrongLength)
    ensures |colorCode| == Digits && !ValidCode(colorCode) ==> r == Err(DigitOutOfRange)
    ensures ValidCode(colorCode) ==> r == Ok(IdOf(colorCode)) && 1 <= r.value <= MaxId
  {
    if |colorCode| != Digits {
      return Err(WrongLength);
    }
    var result := 0;
    var power := 1;
    var i := |colorCode| - 1;
    while i >= 0
      invariant -1 <= i <= 3
      invariant power == Pow4(3 - i)
      invariant result == SuffixValue(colorCode, i + 1)
      invariant forall k :: i < k < 4 ==> IsDigit4(colorCode[k])
    {
      if colorCode[i] < 0 || colorCode[i] > 3 {
        return Err(DigitOutOfRange);
      }
      result := result + colorCode[i] * power;
      power := power * 4;
      i := i - 1;
    }
    assert Pow4(1) == 4 && Pow4(2) == 16 && Pow4(3) == 64;
    assert SuffixValue(colorCode, 3) == colorCode[3];
    assert SuffixValue(colorCode, 2) == 4 * colorCode[2] + colorCode[3];
    assert SuffixValue(colorCode, 1) == 16 * colorCode[1] + 4 * colorCode[2] + colorCode[3];
    return Ok(result + 1);
  }

  /** `ConvertIntIdToBase4`: ids outside [1, 256] are refused; otherwise
      the digits of the id less one are peeled off from the least
      significant end. */
  method ToCode(id: int) returns (r: Result<seq<int>, CodeError>)
    ensures !(1 <= id <= MaxId) ==> r == Err(IdOutOfRange)
    ensures 1 <= id <= MaxId ==> r == Ok(CodeOf(id)) && ValidCode(r.value)
  {
    if id < 1 || id > 256 {
      return Err(IdOutOfRange);
    }
    var base4Value := id - 1;
    assert base4Value == Shifted(id - 1, 0);
    var colorCode := [0, 0, 0, 0];
    var i := 3;
    while i >= 0
      invariant -1 <= i <= 3 && |colorCode| == 4
      invariant base4Value == Shifted(id - 1, 3 - i)
      invariant forall k :: i < k < 4 ==> colorCode[k] == Shifted(id - 1, 3 - k) % 4
    {
      colorCode := colorCode[i := base4Value % 4];
      base4Value := base4Value / 4;
      i := i - 1;
    }
    assert colorCode == CodeOf(id);
    return Ok(colorCode);
  }

  /** Every id in range has a valid code, which reads back as the id. */
  lemma IdRoundTrip(id: int)
    requires 1 <= id <= MaxId
    ensures ValidCode(CodeOf(id)) && IdOf(CodeOf(id)) == id
  {
    var v := id - 1;
    var q1, q2, q3 := Shifted(v, 1), Shifted(v, 2), Shifted(v, 3);
    assert Shifted(v, 0) == v;
    assert q1 == v / 4 && q2 == q1 / 4 && q3 == q2 / 4;
    assert v == 4 * q1 + v % 4;
    assert q1 == 4 * q2 + q1 % 4;
    assert q2 == 4 * q3 + q2 % 4;
    assert 0 <= q3 < 4;
  }

  /** Every valid code stands for an id in range, whose code is the same
      four digits. */
  lemma CodeRoundTrip(c: seq<int>)
    requires ValidCode(c)
    ensures 1 <= IdOf(c) <= MaxId && CodeOf(IdOf(c)) == c
  {
    var v := IdOf(c) - 1;
    assert v % 4 == c[3];
    assert Shifted(v, 1) == 16 * c[0] + 4 * c[1] + c[2];
    assert Shifted(v, 2) == 4 * c[0] + c[1];
    assert Shifted(v, 3) == c[0];
  }
}
