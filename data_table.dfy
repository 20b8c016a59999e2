/** The Delete action of the course table (data-table.tsx): clicking row `i`
    keeps exactly the records whose course code differs from that of the
    record at `i`, so every record sharing the code goes, not only the one
    clicked. */
module DataTable {
  import opened Courses

  /** `prev[i]?.course`: the clicked record's code, or `None` (JavaScript's
      `undefined`) when `i` is not an index of the ledger. */
  function Target(prev: seq<Course>, i: int): (t: Option<string>)
    ensures t.Some? <==> 0 <= i < |prev|
    ensures t.Some? ==> t.value == prev[i].course
  {
    if 0 <= i < |prev| then Some(prev[i].course) else None
  }

  /** How many records carry course code `code`. */
  function CountCode(s: seq<Course>, code: string): nat
  {
    if s == [] then 0 else (if s[0].course == code then 1 else 0) + CountCode(s[1..], code)
  }

  /** `prev.filter(value => value.course !== target)`: a string never equals
      `undefined`, so a `None` target keeps every record. */
  function KeepOthers(prev: seq<Course>, target: Option<string>): (r: seq<Course>)
    ensures |r| <= |prev|
  {
    if prev == [] then []
    else (if Some(prev[0].course) != target then [prev[0]] else []) + KeepOthers(prev[1..], target)
  }

  /** Exactly the records carrying the target code are dropped. */
  lemma {:induction false} KeepOthersLength(prev: seq<Course>, target: Option<string>)
    ensures |KeepOthers(prev, target)| == |prev| - (if target.Some? then CountCode(prev, target.value) else 0)
  {
    if prev != [] {
      KeepOthersLength(prev[1..], target);
    }
  }

  /** Exactly the records with another code are kept. */
  lemma {:induction false} KeepOthersMembers(prev: seq<Course>, target: Option<string>)
    ensures forall v :: v in KeepOthers(prev, target) ==> v in prev && Some(v.course) != target
    ensures forall v :: v in prev && Some(v.course) != target ==> v in KeepOthers(prev, target)
  {
    if prev != [] {
      KeepOthersMembers(prev[1..], target);
      assert prev == [prev[0]] + prev[1..];
    }
  }

  /** The ledger after clicking Delete on row `i`. */
  function DeleteRow(prev: seq<Course>, i: int): (r: seq<Course>)
    ensures forall v :: v in r ==> v in prev
    ensures 0 <= i < |prev| ==> prev[i] !in r
    ensures 0 <= i < |prev| ==> forall v :: v in r ==> v.course != prev[i].course
    ensures 0 <= i < |prev| ==> forall v :: v in prev && v.course != prev[i].course ==> v in r
    ensures 0 <= i < |prev| ==> |r| == |prev| - CountCode(prev, prev[i].course)
    ensures !(0 <= i < |prev|) ==> r == prev
  {
    var target := Target(prev, i);
    UndefinedTargetKeepsAll(prev);
    KeepOthersMembers(prev, target);
    KeepOthersLength(prev, target);
    KeepOthers(prev, target)
  }

  /** An undefined target matches nothing. */
  lemma {:induction false} UndefinedTargetKeepsAll(prev: seq<Course>)
    ensures KeepOthers(prev, None) == prev
  {
    if prev != [] {
      UndefinedTargetKeepsAll(prev[1..]);
      assert [prev[0]] + prev[1..] == prev;
    }
  }

  /** The kept records stay in their original relative order: the filter
      distributes over concatenation. */
  lemma {:induction false} KeepOthersConcat(a: seq<Course>, b: seq<Course>, target: Option<string>)
    ensures KeepOthers(a + b, target) == KeepOthers(a, target) + KeepOthers(b, target)
  {
    if a == [] {
      assert a + b == b;
    } else {
      var ab := a + b;
      var head := if Some(a[0].course) != target then [a[0]] else [];
      assert ab[0] == a[0] && ab[1..] == a[1..] + b;
      KeepOthersConcat(a[1..], b, target);
      calc {
        KeepOthers(ab, target);
        head + KeepOthers(a[1..] + b, target);
        head + (KeepOthers(a[1..], target) + KeepOthers(b, target));
        (head + KeepOthers(a[1..], target)) + KeepOthers(b, target);
      }
    }
  }

  /** Filtering a second time by the same code removes nothing further. */
  lemma {:induction false} KeepOthersIdempotent(prev: seq<Course>, target: Option<string>)
    ensures KeepOthers(KeepOthers(prev, target), target) == KeepOthers(prev, target)
  {
    if prev != [] {
      var rest := KeepOthers(prev[1..], target);
      KeepOthersIdempotent(prev[1..], target);
      if Some(prev[0].course) != target {
        var r := [prev[0]] + rest;
        assert r[0] == prev[0] && r[1..] == rest;
      } else {
        assert [] + rest == rest;
      }
    }
  }

  /** Deleting by the code just deleted leaves the ledger as it is. */
  lemma DeleteSameCodeAgain(prev: seq<Course>, i: int)
    requires 0 <= i < |prev|
    ensures KeepOthers(DeleteRow(prev, i), Some(prev[i].course)) == DeleteRow(prev, i)
    ensures CountCode(DeleteRow(prev, i), prev[i].course) == 0
  {
    KeepOthersIdempotent(prev, Some(prev[i].course));
    KeepOthersLength(DeleteRow(prev, i), Some(prev[i].course));
  }

  /** Records with other codes keep their multiplicity; records with the
      target code all go. */
  lemma {:induction false} KeepOthersMultiset(prev: seq<Course>, target: Option<string>, v: Course)
    ensures multiset(KeepOthers(prev, target))[v] == if Some(v.course) != target then multiset(prev)[v] else 0
  {
    if prev != [] {
      var head := if Some(prev[0].course) != target then [prev[0]] else [];
      var tail := KeepOthers(prev[1..], target);
      KeepOthersMultiset(prev[1..], target, v);
      assert KeepOthers(prev, target) == head + tail;
      assert multiset(head + tail) == multiset(head) + multiset(tail);
      assert prev == [prev[0]] + prev[1..];
      assert multiset(prev) == multiset([prev[0]]) + multiset(prev[1..]);
    }
  }
}
