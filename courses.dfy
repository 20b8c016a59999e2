/** The course record of the transcript (the `Course` type of columns.tsx), the
    fixed list of letter grades and the text forms of a credit and a grade. */
module Courses {

  datatype Option<+T> = None | Some(value: T)

  /** The six letter grades, "A" to "F". */
  datatype Grade = A | B | C | D | E | F

  /** One course record. `selected` is the optional flag the table and the
      exporter read; `None` stands for the key being absent. */
  datatype Course = Course(course: string, credit: int, grade: Grade, selected: Option<bool>)

  /** The grade list used by the form and the submit handler, in display order. */
  const Grades: seq<Grade> := [A, B, C, D, E, F]

  /** The position of a grade in `Grades`. */
  function GradeIndex(g: Grade): (i: nat)
    ensures i < |Grades| && Grades[i] == g
  {
    match g
    case A => 0
    case B => 1
    case C => 2
    case D => 3
    case E => 4
    case F => 5
  }

  /** `grades[i]`: the grade at index `i`, or `None` (JavaScript's `undefined`)
      when `i` is outside the list. */
  function GradeAt(i: int): (g: Option<Grade>)
    ensures g.Some? <==> 0 <= i < |Grades|
    ensures g.Some? ==> GradeIndex(g.value) == i
  {
    if 0 <= i < |Grades| then Some(Grades[i]) else None
  }

  /** The string a grade is stored as. */
  function GradeText(g: Grade): string
  {
    match g
    case A => "A"
    case B => "B"
    case C => "C"
    case D => "D"
    case E => "E"
    case F => "F"
  }

  /** Reads a grade back from its string; anything else is not a grade. */
  function GradeFromText(s: string): (g: Option<Grade>)
    ensures g.Some? ==> GradeText(g.value) == s
  {
    if s == "A" then Some(A)
    else if s == "B" then Some(B)
    else if s == "C" then Some(C)
    else if s == "D" then Some(D)
    else if s == "E" then Some(E)
    else if s == "F" then Some(F)
    else None
  }

  lemma GradeTextRoundTrip(g: Grade)
    ensures GradeFromText(GradeText(g)) == Some(g)
  {
  }

  predicate IsDigit(c: char)
  {
    '0' <= c <= '9'
  }

  function DigitChar(d: nat): (c: char)
    requires d < 10
    ensures IsDigit(c) && c as int - '0' as int == d
  {
    ('0' as int + d) as char
  }

  /** Decimal digits of a natural number, without leading zeros. */
  function NatToString(n: nat): (s: string)
    ensures |s| > 0
    ensures (s[0] == '0') == (n == 0)
    ensures n == 0 ==> s == "0"
    ensures forall k :: 0 <= k < |s| ==> IsDigit(s[k])
    decreases n
  {
    if n < 10 then [DigitChar(n)] else NatToString(n / 10) + [DigitChar(n % 10)]
  }

  /** `Number.prototype.toString()` on an integral credit value. */
  function IntToString(n: int): string
  {
    if n < 0 then "-" + NatToString(-n) else NatToString(n)
  }

  /** Reads a non-empty string of decimal digits as a natural number. */
  function ParseNat(s: string): Option<nat>
    decreases |s|
  {
    if |s| == 0 || !IsDigit(s[|s| - 1]) then None
    else
      var d := s[|s| - 1] as int - '0' as int;
      if |s| == 1 then Some(d)
      else match ParseNat(s[..|s| - 1])
        case None => None
        case Some(v) => Some(10 * v + d)
  }

  /** Reads an optionally negative decimal integer. */
  function ParseInt(s: string): Option<int>
  {
    if |s| > 0 && s[0] == '-' then
      match ParseNat(s[1..])
      case None => None
      case Some(v) => Some(-(v as int))
    else
      match ParseNat(s)
      case None => None
      case Some(v) => Some(v)
  }

  lemma {:induction false} NatToStringRoundTrip(n: nat)
    ensures ParseNat(NatToString(n)) == Some(n)
    decreases n
  {
    if n >= 10 {
      var s := NatToString(n);
      NatToStringRoundTrip(n / 10);
      assert s[..|s| - 1] == NatToString(n / 10);
    }
  }

  /** The text a credit is written as reads back as the same number. */
  lemma IntToStringRoundTrip(n: int)
    ensures ParseInt(IntToString(n)) == Some(n)
  {
    if n < 0 {
      NatToStringRoundTrip(-n);
      assert IntToString(n)[1..] == NatToString(-n);
    } else {
      NatToStringRoundTrip(n);
    }
  }
}
