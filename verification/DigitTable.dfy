/** The formatter's table of two-digit pairs. */
module DigitTable {
  import opened Numerals

  // the table's 200 characters, in rows of ten pairs
  const ROW_0 := "00010203040506070809"
  const ROW_1 := "10111213141516171819"
  const ROW_2 := "20212223242526272829"
  const ROW_3 := "30313233343536373839"
  const ROW_4 := "40414243444546474849"
  const ROW_5 := "50515253545556575859"
  const ROW_6 := "60616263646566676869"
  const ROW_7 := "70717273747576777879"
  const ROW_8 := "80818283848586878889"
  const ROW_9 := "90919293949596979899"

  const DIGIT_ROWS: seq<string> := [ROW_0, ROW_1, ROW_2, ROW_3, ROW_4, ROW_5, ROW_6, ROW_7, ROW_8, ROW_9]

  function Joined(rows: seq<string>): string {
    if rows == [] then "" else Joined(rows[..|rows| - 1]) + rows[|rows| - 1]
  }

  const DIGITS: string := Joined(DIGIT_ROWS)

  ghost predicate IsDecade(row: string, t: char) {
    && |row| == 20
    && row[0] == t && row[1] == '0' && row[2] == t && row[3] == '1' && row[4] == t && row[5] == '2'
    && row[6] == t && row[7] == '3' && row[8] == t && row[9] == '4' && row[10] == t && row[11] == '5'
    && row[12] == t && row[13] == '6' && row[14] == t && row[15] == '7' && row[16] == t && row[17] == '8'
    && row[18] == t && row[19] == '9'
  }

  lemma PairInDecade(row: string, t: char, j: nat)
    requires IsDecade(row, t) && j < 10
    ensures row[2 * j] == t && row[2 * j + 1] == DigitChar(j, false)
  {
  }

  lemma Decade0()
    ensures IsDecade(ROW_0, '0')
  {
  }

  lemma Decade1()
    ensures IsDecade(ROW_1, '1')
  {
  }

  lemma Decade2()
    ensures IsDecade(ROW_2, '2')
  {
  }

  lemma Decade3()
    ensures IsDecade(ROW_3, '3')
  {
  }

  lemma Decade4()
    ensures IsDecade(ROW_4, '4')
  {
  }

  lemma Decade5()
    ensures IsDecade(ROW_5, '5')
  {
  }

  lemma Decade6()
    ensures IsDecade(ROW_6, '6')
  {
  }

  lemma Decade7()
    ensures IsDecade(ROW_7, '7')
  {
  }

  lemma Decade8()
    ensures IsDecade(ROW_8, '8')
  {
  }

  lemma Decade9()
    ensures IsDecade(ROW_9, '9')
  {
  }

  lemma RowIsDecade(k: nat)
    requires k < 10
    ensures IsDecade(DIGIT_ROWS[k], DigitChar(k, false))
  {
    Decade0();
    Decade1();
    Decade2();
    Decade3();
    Decade4();
    Decade5();
    Decade6();
    Decade7();
    Decade8();
    Decade9();
    var rows := [ROW_0, ROW_1, ROW_2, ROW_3, ROW_4, ROW_5, ROW_6, ROW_7, ROW_8, ROW_9];
    assert IsDecade(rows[k], DigitChar(k, false));
  }

  lemma {:induction false} PairInRows(rows: seq<string>, j: nat)
    requires |rows| <= 10 && j < 10 * |rows|
    requires forall k | 0 <= k < |rows| :: IsDecade(rows[k], DigitChar(k, false))
    ensures |Joined(rows)| == 20 * |rows|
    ensures Joined(rows)[2 * j] == DigitChar(j / 10, false)
    ensures Joined(rows)[2 * j + 1] == DigitChar(j % 10, false)
  {
    var k := |rows| - 1;
    if k == 0 {
      assert Joined(rows[..k]) == "";
      PairInDecade(rows[0], '0', j);
    } else if j < 10 * k {
      PairInRows(rows[..k], j);
    } else {
      PairInRows(rows[..k], 0);
      PairInDecade(rows[k], DigitChar(k, false), j - 10 * k);
    }
  }

  /** Entry j of the table is the two digits of j. */
  lemma DigitPairs(j: nat)
    requires j < 100
    ensures |DIGITS| == 200
    ensures DIGITS[2 * j] == DigitChar(j / 10, false) && DIGITS[2 * j + 1] == DigitChar(j % 10, false)
  {
    forall k | 0 <= k < 10
      ensures IsDecade(DIGIT_ROWS[k], DigitChar(k, false))
    {
      RowIsDecade(k);
    }
    PairInRows(DIGIT_ROWS, j);
  }
}
