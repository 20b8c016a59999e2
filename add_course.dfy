/** The add-course form of add-course.tsx: three shared state cells (course
    code, credit, grade index) updated by the form's event handlers, and the
    grade picker's six toggles, of which exactly one is pressed. */
module AddCourse {
  import opened Courses

  /** The codes offered as completions while typing. */
  const ExampleCourseCodes: seq<string> := ["MTH 101", "GST 111", "PHY 101", "PHY 107", "STA 111", "MTH 103"]

  /** The credit gauge's scale; it only bounds the display, never the value. */
  const MaxValue: int := 4

  /** The three form cells `courseCode`, `creditNumber` and `gradeIndexAtom`. */
  class FormAtoms {
    var courseCode: string
    var creditNumber: int
    var gradeIndex: int

    /** What the handlers keep: the credit never goes below zero and the grade
        index always names one of the six grades. */
    ghost predicate Valid()
      reads this
    {
      creditNumber >= 0 && 0 <= gradeIndex < |Grades|
    }

    /** The cells' initial values: no code, zero credit, grade index 5 ("F"). */
    constructor ()
      ensures Valid()
      ensures courseCode == "" && creditNumber == 0 && gradeIndex == 5
    {
      courseCode := "";
      creditNumber := 0;
      gradeIndex := 5;
    }

    /** The input's change handler: the code becomes exactly the typed text. */
    method TypeCourseCode(text: string)
      modifies this`courseCode
      ensures courseCode == text
    {
      courseCode := text;
    }

    /** Picking completion `k` (by mouse or keyboard) sets that code. */
    method ChooseSuggestion(k: nat)
      requires k < |ExampleCourseCodes|
      modifies this`courseCode
      ensures courseCode == ExampleCourseCodes[k]
    {
      courseCode := ExampleCourseCodes[k];
    }

    /** The minus button: lowers the credit by one only while it is positive. */
    method DecreaseCredit()
      modifies this`creditNumber
      ensures creditNumber == if old(creditNumber) > 0 then old(creditNumber) - 1 else old(creditNumber)
      ensures old(Valid()) ==> Valid()
    {
      if creditNumber > 0 {
        creditNumber := creditNumber - 1;
      }
    }

    /** The plus button: raises the credit by one, with no upper bound
        (`MaxValue` is the gauge's scale only). */
    method IncreaseCredit()
      modifies this`creditNumber
      ensures creditNumber == old(creditNumber) + 1
      ensures old(Valid()) ==> Valid()
    {
      creditNumber := creditNumber + 1;
    }
  }

  /** The grade picker's local `toggleStates` array. */
  class GradeToggles {
    var toggleStates: array<bool>

    /** Slot `i` is the only pressed one of the six. */
    ghost predicate OnlyPressed(i: int)
      reads this, toggleStates
    {
      toggleStates.Length == |Grades| && 0 <= i < |Grades| &&
      forall k :: 0 <= k < toggleStates.Length ==> toggleStates[k] == (k == i)
    }

    /** `initState`: six unpressed slots, then the slot of the current grade
        index pressed. */
    constructor (gradeIndex: int)
      requires 0 <= gradeIndex < |Grades|
      ensures fresh(toggleStates)
      ensures OnlyPressed(gradeIndex)
    {
      var initState := new bool[|Grades|](_ => false);
      initState[gradeIndex] := true;
      toggleStates := initState;
    }

    /** Pressing grade `index`: the grade index becomes `index`, and the
        toggles are replaced by a copy cleared with `fill(false)` in which only
        slot `index` is pressed. */
    method Press(atoms: FormAtoms, index: int)
      requires toggleStates.Length == |Grades|
      requires 0 <= index < |Grades|
      modifies atoms`gradeIndex, this`toggleStates
      ensures atoms.gradeIndex == index
      ensures old(atoms.Valid()) ==> atoms.Valid()
      ensures fresh(toggleStates)
      ensures OnlyPressed(index)
      ensures PressedCount(toggleStates[..]) == 1
    {
      atoms.gradeIndex := index;
      var prev := toggleStates;
      var newArr := new bool[prev.Length](k requires 0 <= k < prev.Length reads prev => prev[k]);
      forall k | 0 <= k < newArr.Length {
        newArr[k] := false;
      }
      newArr[index] := true;
      toggleStates := newArr;
      OnlyPressedCount(toggleStates[..], index);
    }
  }

  /** A pressed picker has exactly one pressed slot. */
  lemma {:induction false} OnlyPressedCount(a: seq<bool>, i: int)
    requires 0 <= i < |a|
    requires forall k :: 0 <= k < |a| ==> a[k] == (k == i)
    ensures PressedCount(a) == 1
  {
    if i == 0 {
      NonePressed(a[1..]);
    } else {
      OnlyPressedCount(a[1..], i - 1);
    }
  }

  lemma {:induction false} NonePressed(a: seq<bool>)
    requires forall k :: 0 <= k < |a| ==> !a[k]
    ensures PressedCount(a) == 0
  {
    if a != [] {
      NonePressed(a[1..]);
    }
  }

  /** The number of pressed slots. */
  function PressedCount(a: seq<bool>): nat
  {
    if a == [] then 0 else (if a[0] then 1 else 0) + PressedCount(a[1..])
  }
}
