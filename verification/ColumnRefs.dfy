/** Column letters of a spreadsheet cell reference: a numbering without a zero digit. */
module ColumnRefs {
  import opened Text

  predicate IsUpper(c: char) { 'A' <= c <= 'Z' }

  predicate AllUpper(s: string) { forall i :: 0 <= i < |s| ==> IsUpper(s[i]) }

  function LetterValue(c: char): (v: nat)
    requires IsUpper(c)
    ensures 1 <= v <= 26
  {
    c as int - 'A' as int + 1
  }

  /** The leading capital letters of a reference. */
  function ColumnLetters(ref: string): (letters: string)
    ensures AllUpper(letters) && letters <= ref
    ensures |letters| < |ref| ==> !IsUpper(ref[|letters|])
  {
    if ref == "" || !IsUpper(ref[0]) then "" else [ref[0]] + ColumnLetters(ref[1..])
  }

  function ColumnNumber(letters: string): nat
    requires AllUpper(letters)
  {
    if letters == "" then 0 else 26 * ColumnNumber(letters[..|letters| - 1]) + LetterValue(letters[|letters| - 1])
  }

  /** The number of the column a reference names; 0 where it names none. */
  method ColumnIndexFromRef(ref: string) returns (index: nat)
    ensures index == ColumnNumber(ColumnLetters(ref))
  {
    var name := ColumnLetters(ref);
    index := 0;
    var i := 0;
    while i < |name|
      invariant 0 <= i <= |name|
      invariant index == ColumnNumber(name[..i])
    {
      assert name[..i + 1][..i] == name[..i];
      index := index * 26 + (name[i] as int - 'A' as int + 1);
      i := i + 1;
    }
    assert name[..i] == name;
  }

  /** The letters of a column, counted from 1. */
  function ColumnName(n: nat): (letters: string)
    ensures AllUpper(letters)
  {
    if n == 0 then "" else ColumnName((n - 1) / 26) + [('A' as int + (n - 1) % 26) as char]
  }

  lemma {:induction false} NumberOfName(n: nat)
    ensures ColumnNumber(ColumnName(n)) == n
  {
    if n > 0 {
      var letters := ColumnName(n);
      NumberOfName((n - 1) / 26);
      assert letters[..|letters| - 1] == ColumnName((n - 1) / 26);
    }
  }

  lemma {:induction false} NameOfNumber(letters: string)
    requires AllUpper(letters)
    ensures ColumnName(ColumnNumber(letters)) == letters
  {
    if letters != "" {
      var init, last := letters[..|letters| - 1], letters[|letters| - 1];
      NameOfNumber(init);
      var n := ColumnNumber(letters);
      assert (n - 1) / 26 == ColumnNumber(init) && (n - 1) % 26 == LetterValue(last) - 1;
      assert letters == init + [last];
    }
  }

  /** Letters and numbers of columns correspond one to one, whatever row follows the letters. */
  lemma ReferencesNameTheirColumn(n: nat, row: nat)
    ensures ColumnNumber(ColumnLetters(ColumnName(n) + Decimal(row))) == n
  {
    NumberOfName(n);
    LettersStopAtTheRow(ColumnName(n), Decimal(row));
  }

  lemma {:induction false} LettersStopAtTheRow(letters: string, row: string)
    requires AllUpper(letters) && row != "" && AllDigits(row)
    ensures ColumnLetters(letters + row) == letters
  {
    var ref := letters + row;
    if letters == "" {
      assert ref[0] == row[0] && IsDigit(row[0]);
    } else {
      assert ref[0] == letters[0] && ref[1..] == letters[1..] + row;
      LettersStopAtTheRow(letters[1..], row);
      assert [letters[0]] + letters[1..] == letters;
    }
  }
}
