/** The transcript page of page.tsx: the shared course list (`courseArrayAtom`),
    its browser-storage copy, the add-course dialog's submit and reset, the CSV
    import and the Delete action wired in from the table. The validation
    schema `courseSchema` is a parameter: `schema(c)` is whether
    `courseSchema.safeParse(c)` succeeds. */
module Page {
  import opened Courses
  import opened DataTable
  import AddCourse

  /** The storage key the course list is kept under. */
  const StorageLocation: string := "demoTranscript"

  /** Every record of the list passes the schema. */
  ghost predicate AllValid(s: seq<Course>, schema: Course -> bool)
  {
    forall k :: 0 <= k < |s| ==> schema(s[k])
  }

  /** The record built on submit from the form's cells. Its grade is
      `grades[courseIndex]`; when that is undefined no record of the schema's
      shape exists (an enum field never accepts `undefined`), hence `None`. */
  function Candidate(courseName: string, courseCredit: int, courseIndex: int): (c: Option<Course>)
    ensures c.Some? <==> 0 <= courseIndex < |Grades|
    ensures c.Some? ==> c.value.selected == Some(false)
    ensures c.Some? ==> c.value.course == courseName && c.value.credit == courseCredit
    ensures c.Some? ==> GradeIndex(c.value.grade) == courseIndex
  {
    match GradeAt(courseIndex)
    case None => None
    case Some(g) => Some(Course(courseName, courseCredit, g, Some(false)))
  }

  /** The parsed rows an import keeps: those that validate, in parse order. */
  function Accepted(rows: seq<Course>, schema: Course -> bool): (r: seq<Course>)
    ensures |r| <= |rows|
  {
    if rows == [] then []
    else (if schema(rows[0]) then [rows[0]] else []) + Accepted(rows[1..], schema)
  }

  /** An accepted row is a parsed row that validates, and every parsed row that
      validates is accepted. */
  lemma {:induction false} AcceptedMembers(rows: seq<Course>, schema: Course -> bool)
    ensures forall c :: c in Accepted(rows, schema) ==> c in rows && schema(c)
    ensures forall c :: c in rows && schema(c) ==> c in Accepted(rows, schema)
  {
    if rows != [] {
      AcceptedMembers(rows[1..], schema);
      assert rows == [rows[0]] + rows[1..];
    }
  }

  /** Rows are accepted independently of each other and keep their order. */
  lemma {:induction false} AcceptedConcat(a: seq<Course>, b: seq<Course>, schema: Course -> bool)
    ensures Accepted(a + b, schema) == Accepted(a, schema) + Accepted(b, schema)
  {
    if a == [] {
      assert a + b == b;
    } else {
      var head := if schema(a[0]) then [a[0]] else [];
      assert (a + b)[0] == a[0];
      assert (a + b)[1..] == a[1..] + b;
      assert Accepted(a + b, schema) == head + Accepted(a[1..] + b, schema);
      AcceptedConcat(a[1..], b, schema);
      assert head + (Accepted(a[1..], schema) + Accepted(b, schema))
          == (head + Accepted(a[1..], schema)) + Accepted(b, schema);
    }
  }

  /** The import loop: `courseSchema.parse` on each parsed row, keeping the rows
      that do not throw. */
  method ValidEntries(rows: seq<Course>, schema: Course -> bool) returns (newEntries: seq<Course>)
    ensures newEntries == Accepted(rows, schema)
  {
    newEntries := [];
    for i := 0 to |rows|
      invariant newEntries == Accepted(rows[..i], schema)
    {
      var item := rows[i];
      AcceptedConcat(rows[..i], [item], schema);
      assert rows[..i + 1] == rows[..i] + [item];
      assert [item][1..] == [];
      if schema(item) {
        newEntries := newEntries + [item];
      }
    }
    assert rows[..|rows|] == rows;
  }

  /** Adding, importing and deleting never bring a record that fails the
      schema into a list whose records all pass it. */
  lemma AddKeepsValid(ledger: seq<Course>, c: Course, schema: Course -> bool)
    requires AllValid(ledger, schema) && schema(c)
    ensures AllValid(ledger + [c], schema)
  {
    assert forall k :: 0 <= k < |ledger| ==> (ledger + [c])[k] == ledger[k];
  }

  lemma ImportKeepsValid(ledger: seq<Course>, rows: seq<Course>, schema: Course -> bool)
    requires AllValid(ledger, schema)
    ensures AllValid(ledger + Accepted(rows, schema), schema)
  {
    var added := Accepted(rows, schema);
    AcceptedMembers(rows, schema);
    forall k | 0 <= k < |ledger + added|
      ensures schema((ledger + added)[k])
    {
      if k >= |ledger| {
        assert (ledger + added)[k] == added[k - |ledger|];
        assert added[k - |ledger|] in added;
      }
    }
  }

  lemma DeleteKeepsValid(ledger: seq<Course>, i: int, schema: Course -> bool)
    requires AllValid(ledger, schema)
    ensures AllValid(DeleteRow(ledger, i), schema)
  {
    var r := DeleteRow(ledger, i);
    forall k | 0 <= k < |r|
      ensures schema(r[k])
    {
      assert r[k] in r;
      var j :| 0 <= j < |ledger| && ledger[j] == r[k];
    }
  }

  /** `courseArrayAtom`: the course list every component shares. */
  class Transcript {
    var courses: seq<Course>

    /** The atom starts out empty. */
    constructor ()
      ensures courses == []
    {
      courses := [];
    }

    /** The table's Delete on row `i` (data-table.tsx). */
    method Delete(i: int)
      modifies this
      ensures courses == DeleteRow(old(courses), i)
    {
      courses := DeleteRow(courses, i);
    }
  }

  /** The browser storage entry under `StorageLocation`; `None` when absent. */
  class Storage {
    var item: Option<seq<Course>>

    constructor (item: Option<seq<Course>>)
      ensures this.item == item
    {
      this.item := item;
    }
  }

  /** The add-course form inside its dialog: the dialog's open flag, the form
      cells and the shared list. */
  class CourseForm {
    var isOpen: bool
    const atoms: AddCourse.FormAtoms
    const transcript: Transcript

    constructor (atoms: AddCourse.FormAtoms, transcript: Transcript, isOpen: bool)
      ensures this.atoms == atoms && this.transcript == transcript && this.isOpen == isOpen
    {
      this.atoms := atoms;
      this.transcript := transcript;
      this.isOpen := isOpen;
    }

    /** The Add Course button: a record that passes the schema is appended and
        closes the dialog; any other leaves list and dialog as they were. On a
        form whose grade index names a grade, the schema alone decides. */
    method ButtonHandler(schema: Course -> bool) returns (success: bool)
      modifies transcript, this`isOpen
      ensures var c := Candidate(atoms.courseCode, atoms.creditNumber, atoms.gradeIndex);
        && (success <==> c.Some? && schema(c.value))
        && transcript.courses == (if success then old(transcript.courses) + [c.value] else old(transcript.courses))
      ensures atoms.Valid() ==>
        (success <==> schema(Course(atoms.courseCode, atoms.creditNumber, Grades[atoms.gradeIndex], Some(false))))
      ensures isOpen == if success then false else old(isOpen)
    {
      var courseInfo := Candidate(atoms.courseCode, atoms.creditNumber, atoms.gradeIndex);
      success := courseInfo.Some? && schema(courseInfo.value);
      if success {
        transcript.courses := transcript.courses + [courseInfo.value];
        isOpen := false;
      }
    }

    /** The effect on the open flag: a closed dialog puts the form cells back to
        their initial values. */
    method ResetEffect()
      modifies atoms
      ensures !isOpen ==> atoms.courseCode == "" && atoms.creditNumber == 0 && atoms.gradeIndex == 5
      ensures isOpen ==> unchanged(atoms)
      ensures !isOpen ==> atoms.Valid()
    {
      if !isOpen {
        atoms.courseCode := "";
        atoms.creditNumber := 0;
        atoms.gradeIndex := 5;
      }
    }

    /** A submit followed by the effect on the open flag, which runs only when
        the submit changed that flag: on success the candidate record built
        from the form before the reset has been appended, and a dialog that
        was open is closed with a blank form; on failure nothing changes. */
    method SubmitAndSettle(schema: Course -> bool) returns (success: bool)
      modifies transcript, this`isOpen, atoms
      ensures success ==> old(Candidate(atoms.courseCode, atoms.creditNumber, atoms.gradeIndex)).Some?
      ensures success ==>
        transcript.courses == old(transcript.courses) + [old(Candidate(atoms.courseCode, atoms.creditNumber, atoms.gradeIndex)).value]
      ensures success && old(isOpen) ==> atoms.courseCode == "" && atoms.creditNumber == 0 && atoms.gradeIndex == 5
      ensures success && old(isOpen) ==> atoms.Valid()
      ensures success && !old(isOpen) ==> unchanged(atoms)
      ensures !success ==> transcript.courses == old(transcript.courses) && unchanged(atoms)
      ensures isOpen == if success then false else old(isOpen)
    {
      var wasOpen := isOpen;
      success := ButtonHandler(schema);
      if isOpen != wasOpen {
        ResetEffect();
      }
    }
  }

  /** The page: the shared list and its storage entry. */
  class Page {
    const transcript: Transcript
    const storage: Storage

    constructor (transcript: Transcript, storage: Storage)
      ensures this.transcript == transcript && this.storage == storage
    {
      this.transcript := transcript;
      this.storage := storage;
    }

    /** The layout effect on first render: with no stored entry and an empty
        list the entry is created empty; with a stored entry the list is
        replaced by it; otherwise nothing changes. */
    method Hydrate()
      modifies transcript, storage
      ensures old(storage.item).Some? ==> transcript.courses == old(storage.item).value && storage.item == old(storage.item)
      ensures old(storage.item) == None && old(transcript.courses) == [] ==> storage.item == Some([]) && transcript.courses == []
      ensures old(storage.item) == None && old(transcript.courses) != [] ==>
        storage.item == None && transcript.courses == old(transcript.courses)
    {
      if storage.item == None && |transcript.courses| == 0 {
        storage.item := Some([]);
      } else if storage.item.Some? {
        transcript.courses := storage.item.value;
      }
    }

    /** The effect on every change of the list: the entry holds the list. */
    method Persist()
      modifies storage
      ensures storage.item == Some(transcript.courses)
    {
      storage.item := Some(transcript.courses);
    }

    /** Storing the list and then hydrating from the entry gives the same
        list back. */
    method PersistThenHydrate()
      modifies transcript, storage
      ensures storage.item == Some(old(transcript.courses))
      ensures transcript.courses == old(transcript.courses)
    {
      Persist();
      Hydrate();
    }

    /** The file reader's completion: the rows that validate are appended after
        the existing list, whether or not the parser reported errors, which
        only raise a warning. */
    method ImportCsv(parsed: seq<Course>, parseErrors: nat, schema: Course -> bool) returns (parseWarning: bool)
      modifies transcript
      ensures parseWarning == (parseErrors > 0)
      ensures transcript.courses == old(transcript.courses) + Accepted(parsed, schema)
    {
      parseWarning := parseErrors > 0;
      var newEntries := ValidEntries(parsed, schema);
      transcript.courses := transcript.courses + newEntries;
    }
  }
}
