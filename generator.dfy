/** The greedy timetable assignment engine of `src/utils/timetableGenerator.js`.

    Subjects are taken in priority order; for each one the engine lists the
    free candidate slots (faculty preferences, then student preferences, then
    every cell of the fixed weekly grid), picks the best and appends it to the
    running timetable. A separate validator reports pairwise conflicts. */
module TimetableGenerator {
  import opened Wrappers
  import opened Collections

  const DAYS: seq<string> := ["Monday", "Tuesday", "Wednesday", "Thursday", "Friday"]
  const TIME_SLOTS: seq<string> :=
    ["9:00 AM", "10:00 AM", "11:00 AM", "12:00 PM", "1:00 PM", "2:00 PM", "3:00 PM", "4:00 PM"]

  /** Candidate scores: a faculty preference, a student preference, any open cell. */
  const FACULTY_SCORE: int := 3
  const STUDENT_SCORE: int := 2
  const OPEN_SCORE: int := 1

  type Id = string

  /** One submitted preference; a missing teacher or room is `None`. */
  datatype Preference = Preference(
    subject: string, day: string, time: string,
    teacher: Option<string>, room: Option<string>)

  /** A preference map as `Object.entries` lists it: submitter id and preference. */
  type Preferences = seq<(Id, Preference)>

  /** A scored candidate placement for one subject. */
  datatype Slot = Slot(
    day: string, time: string, teacher: Option<string>, room: Option<string>, score: int)

  /** A committed timetable entry. */
  datatype Entry = Entry(
    id: Id, subject: string, day: string, time: string,
    teacher: Option<string>, room: Option<string>)

  /** What one generation run returns: the timetable and, in order, the
      subjects for which no slot could be found. */
  datatype Generated = Generated(timetable: seq<Entry>, skipped: seq<string>)

  // ---------------------------------------------------------------------------
  // Slot freeness

  /** `e` occupies the teacher or the room of the probed placement. */
  predicate Blocks(e: Entry, day: string, time: string, teacher: Option<string>, room: Option<string>) {
    e.day == day && e.time == time && (e.teacher == teacher || e.room == room)
  }

  /** `!timetable.some(entry => ...)`, walking the timetable from the front. */
  predicate IsSlotAvailable(timetable: seq<Entry>, day: string, time: string,
                            teacher: Option<string>, room: Option<string>)
  {
    timetable == [] ||
    (!Blocks(timetable[0], day, time, teacher, room) &&
     IsSlotAvailable(timetable[1..], day, time, teacher, room))
  }

  /** A placement is unavailable exactly when some committed entry has its day
      and time and shares its teacher or its room; an empty timetable leaves
      every placement available. */
  lemma {:induction false} IsSlotAvailableIff(timetable: seq<Entry>, day: string, time: string,
                                              teacher: Option<string>, room: Option<string>)
    ensures !IsSlotAvailable(timetable, day, time, teacher, room) <==>
            exists i :: 0 <= i < |timetable| && Blocks(timetable[i], day, time, teacher, room)
  {
    if timetable != [] {
      IsSlotAvailableIff(timetable[1..], day, time, teacher, room);
      if !IsSlotAvailable(timetable, day, time, teacher, room) && !Blocks(timetable[0], day, time, teacher, room) {
        var i :| 0 <= i < |timetable[1..]| && Blocks(timetable[1..][i], day, time, teacher, room);
        assert Blocks(timetable[i + 1], day, time, teacher, room);
      }
      if exists i :: 0 <= i < |timetable| && Blocks(timetable[i], day, time, teacher, room) {
        var i :| 0 <= i < |timetable| && Blocks(timetable[i], day, time, teacher, room);
        if i > 0 {
          assert Blocks(timetable[1..][i - 1], day, time, teacher, room);
        }
      }
    }
  }

  predicate Free(timetable: seq<Entry>, c: Slot) {
    IsSlotAvailable(timetable, c.day, c.time, c.teacher, c.room)
  }

  /** Appending an entry keeps a placement free only if the new entry does not block it. */
  lemma IsSlotAvailableAppend(timetable: seq<Entry>, e: Entry, c: Slot)
    ensures Free(timetable + [e], c) <==> Free(timetable, c) && !Blocks(e, c.day, c.time, c.teacher, c.room)
  {
    var t := timetable + [e];
    IsSlotAvailableIff(t, c.day, c.time, c.teacher, c.room);
    IsSlotAvailableIff(timetable, c.day, c.time, c.teacher, c.room);
    if !Free(timetable, c) {
      var i :| 0 <= i < |timetable| && Blocks(timetable[i], c.day, c.time, c.teacher, c.room);
      assert t[i] == timetable[i];
    }
    if Blocks(e, c.day, c.time, c.teacher, c.room) {
      assert t[|timetable|] == e;
    }
    if !Free(t, c) {
      var i :| 0 <= i < |t| && Blocks(t[i], c.day, c.time, c.teacher, c.room);
      if i < |timetable| {
        assert t[i] == timetable[i];
      }
    }
  }

  // ---------------------------------------------------------------------------
  // Candidate search

  /** `Object.entries(prefs).filter(([_, p]) => p.subject === subject)`, values only. */
  function SubjectPreferences(prefs: Preferences, subject: string): (r: seq<Preference>)
    ensures |r| <= |prefs|
    ensures forall i :: 0 <= i < |r| ==> r[i].subject == subject
    ensures forall j :: 0 <= j < |prefs| && prefs[j].1.subject == subject ==> prefs[j].1 in r
  {
    if prefs == [] then []
    else
      var rest := SubjectPreferences(prefs[1..], subject);
      assert forall j :: 1 <= j < |prefs| ==> prefs[j] == prefs[1..][j - 1];
      (if prefs[0].1.subject == subject then [prefs[0].1] else []) + rest
  }

  /** The filter keeps `Object.entries` order: it distributes over concatenation. */
  lemma {:induction false} SubjectPreferencesAppend(a: Preferences, b: Preferences, subject: string)
    ensures SubjectPreferences(a + b, subject) == SubjectPreferences(a, subject) + SubjectPreferences(b, subject)
  {
    if a == [] {
      assert a + b == b;
    } else {
      assert (a + b)[0] == a[0];
      assert (a + b)[1..] == a[1..] + b;
      SubjectPreferencesAppend(a[1..], b, subject);
    }
  }

  /** Each preference selected for a subject is one of the submitted ones. */
  lemma {:induction false} SubjectPreferencesFrom(prefs: Preferences, subject: string)
    ensures forall p :: p in SubjectPreferences(prefs, subject) ==> exists j :: 0 <= j < |prefs| && prefs[j].1 == p
  {
    if prefs != [] {
      SubjectPreferencesFrom(prefs[1..], subject);
      forall p | p in SubjectPreferences(prefs, subject) ensures exists j :: 0 <= j < |prefs| && prefs[j].1 == p {
        if p !in SubjectPreferences(prefs[1..], subject) {
          assert prefs[0].1 == p;
        } else {
          var j :| 0 <= j < |prefs[1..]| && prefs[1..][j].1 == p;
          assert prefs[j + 1].1 == p;
        }
      }
    }
  }

  /** Number of preferences naming `subject` (`filter(...).length`). */
  function Count(prefs: Preferences, subject: string): nat {
    |SubjectPreferences(prefs, subject)|
  }

  /** The candidate a preference yields, with the given score. */
  function SlotOf(p: Preference, score: int): Slot {
    Slot(p.day, p.time, p.teacher, p.room, score)
  }

  /** The placements probed for a list of preferences, in order. */
  function Probes(prefs: seq<Preference>, score: int): (r: seq<Slot>)
    ensures |r| == |prefs|
    ensures forall i :: 0 <= i < |r| ==> r[i] == SlotOf(prefs[i], score)
  {
    seq(|prefs|, i requires 0 <= i < |prefs| => SlotOf(prefs[i], score))
  }

  /** One day's row of the grid, probed with one teacher and room. */
  function RowProbes(day: string, times: seq<string>, teacher: Option<string>, room: Option<string>): (r: seq<Slot>)
    ensures |r| == |times|
    ensures forall j :: 0 <= j < |r| ==> r[j] == Slot(day, times[j], teacher, room, OPEN_SCORE)
  {
    seq(|times|, j requires 0 <= j < |times| => Slot(day, times[j], teacher, room, OPEN_SCORE))
  }

  /** All cells of `days` x `times`, day by day: the order of the nested
      `for (const day of DAYS) for (const time of TIME_SLOTS)` loop. */
  function GridProbes(days: seq<string>, times: seq<string>, teacher: Option<string>, room: Option<string>): seq<Slot>
  {
    if days == [] then []
    else GridProbes(days[..|days| - 1], times, teacher, room) + RowProbes(days[|days| - 1], times, teacher, room)
  }

  /** The probes that are free, in order. */
  function FreeSlots(timetable: seq<Entry>, probes: seq<Slot>): (r: seq<Slot>)
    ensures |r| <= |probes|
    ensures forall c :: c in r ==> c in probes && Free(timetable, c)
  {
    if probes == [] then []
    else (if Free(timetable, probes[0]) then [probes[0]] else []) + FreeSlots(timetable, probes[1..])
  }

  lemma {:induction false} FreeSlotsAppend(timetable: seq<Entry>, probes: seq<Slot>, c: Slot)
    ensures FreeSlots(timetable, probes + [c])
         == FreeSlots(timetable, probes) + (if Free(timetable, c) then [c] else [])
  {
    if probes != [] {
      assert (probes + [c])[1..] == probes[1..] + [c];
      FreeSlotsAppend(timetable, probes[1..], c);
    }
  }

  /** One step of a preference loop: probing `prefs[i]` extends the free
      candidates by that preference's slot when it is free. */
  lemma PreferenceStep(timetable: seq<Entry>, prefs: seq<Preference>, score: int, i: nat)
    requires i < |prefs|
    ensures var ps, p := Probes(prefs, score), prefs[i];
            FreeSlots(timetable, ps[..i + 1]) == FreeSlots(timetable, ps[..i]) +
              (if IsSlotAvailable(timetable, p.day, p.time, p.teacher, p.room)
               then [Slot(p.day, p.time, p.teacher, p.room, score)] else [])
  {
    var ps := Probes(prefs, score);
    assert ps[..i + 1] == ps[..i] + [ps[i]];
    FreeSlotsAppend(timetable, ps[..i], ps[i]);
  }

  /** One step of the nested grid loop: probing day `d` at time `t` extends
      the free open-grid candidates by that cell when it is free. */
  lemma CellStep(timetable: seq<Entry>, days: seq<string>, times: seq<string>,
                 teacher: Option<string>, room: Option<string>, d: nat, t: nat)
    requires d < |days| && t < |times|
    ensures var g, row := GridProbes(days[..d], times, teacher, room), RowProbes(days[d], times, teacher, room);
            FreeSlots(timetable, g + row[..t + 1]) == FreeSlots(timetable, g + row[..t]) +
              (if IsSlotAvailable(timetable, days[d], times[t], teacher, room)
               then [Slot(days[d], times[t], teacher, room, OPEN_SCORE)] else [])
  {
    var g, row := GridProbes(days[..d], times, teacher, room), RowProbes(days[d], times, teacher, room);
    assert g + row[..t + 1] == (g + row[..t]) + [row[t]];
    FreeSlotsAppend(timetable, g + row[..t], row[t]);
  }

  /** Finishing a row of the grid loop completes one more day of probes. */
  lemma RowDone(days: seq<string>, times: seq<string>, teacher: Option<string>, room: Option<string>, d: nat)
    requires d < |days|
    ensures GridProbes(days[..d], times, teacher, room) + RowProbes(days[d], times, teacher, room)[..|times|]
         == GridProbes(days[..d + 1], times, teacher, room)
  {
    assert days[..d + 1][..d] == days[..d];
    assert RowProbes(days[d], times, teacher, room)[..|times|] == RowProbes(days[d], times, teacher, room);
  }

  /** `probes[i]` is the first free probe. */
  predicate FirstFreeAt(timetable: seq<Entry>, probes: seq<Slot>, i: int) {
    0 <= i < |probes| && Free(timetable, probes[i]) &&
    forall j :: 0 <= j < i ==> !Free(timetable, probes[j])
  }

  predicate NoneFree(timetable: seq<Entry>, probes: seq<Slot>) {
    forall j :: 0 <= j < |probes| ==> !Free(timetable, probes[j])
  }

  /** The free probes are empty exactly when no probe is free, and otherwise
      begin with the first free probe. */
  lemma {:induction false} FreeSlotsHead(timetable: seq<Entry>, probes: seq<Slot>)
    ensures FreeSlots(timetable, probes) == [] <==> NoneFree(timetable, probes)
    ensures forall i :: FirstFreeAt(timetable, probes, i) ==> FreeSlots(timetable, probes)[0] == probes[i]
  {
    if probes != [] {
      FreeSlotsHead(timetable, probes[1..]);
      if !Free(timetable, probes[0]) {
        forall i | FirstFreeAt(timetable, probes, i)
          ensures FreeSlots(timetable, probes)[0] == probes[i]
        {
          assert FirstFreeAt(timetable, probes[1..], i - 1);
        }
        if NoneFree(timetable, probes[1..]) {
          forall j | 0 <= j < |probes| ensures !Free(timetable, probes[j]) {
            if j > 0 { assert probes[j] == probes[1..][j - 1]; }
          }
        }
      } else {
        forall i | FirstFreeAt(timetable, probes, i) ensures i == 0 { }
      }
    }
  }

  /** Teacher and room used for the open-grid candidates: those of the first
      faculty preference for the subject, or `undefined`. */
  function FallbackTeacher(facultyPrefs: seq<Preference>): Option<string> {
    if facultyPrefs == [] then None else facultyPrefs[0].teacher
  }

  function FallbackRoom(facultyPrefs: seq<Preference>): Option<string> {
    if facultyPrefs == [] then None else facultyPrefs[0].room
  }

  function FacultyProbes(faculty: Preferences, subject: string): seq<Slot> {
    Probes(SubjectPreferences(faculty, subject), FACULTY_SCORE)
  }

  function StudentProbes(student: Preferences, subject: string): seq<Slot> {
    Probes(SubjectPreferences(student, subject), STUDENT_SCORE)
  }

  function OpenProbes(faculty: Preferences, subject: string): seq<Slot> {
    var f := SubjectPreferences(faculty, subject);
    GridProbes(DAYS, TIME_SLOTS, FallbackTeacher(f), FallbackRoom(f))
  }

  /** The candidate list `findAvailableSlots` builds for `subject`. */
  function Candidates(timetable: seq<Entry>, faculty: Preferences, student: Preferences, subject: string): seq<Slot>
  {
    FreeSlots(timetable, FacultyProbes(faculty, subject))
      + FreeSlots(timetable, StudentProbes(student, subject))
      + FreeSlots(timetable, OpenProbes(faculty, subject))
  }

  function ScoreOf(c: Slot): int {
    c.score
  }

  /** Every candidate has one of the three scores, and they come 3s, then
      2s, then 1s; the open-grid candidates all carry the fallback teacher and
      room. */
  lemma CandidatesRanked(timetable: seq<Entry>, faculty: Preferences, student: Preferences, subject: string)
    ensures NonIncreasing(Candidates(timetable, faculty, student, subject), ScoreOf)
    ensures forall c :: c in Candidates(timetable, faculty, student, subject) ==>
              c.score == FACULTY_SCORE || c.score == STUDENT_SCORE || c.score == OPEN_SCORE
    ensures forall c :: c in FreeSlots(timetable, OpenProbes(faculty, subject)) ==>
              c.score == OPEN_SCORE &&
              c.teacher == FallbackTeacher(SubjectPreferences(faculty, subject)) &&
              c.room == FallbackRoom(SubjectPreferences(faculty, subject))
  {
    var f := SubjectPreferences(faculty, subject);
    ProbesScored(f, FACULTY_SCORE);
    ProbesScored(SubjectPreferences(student, subject), STUDENT_SCORE);
    GridProbesScored(DAYS, TIME_SLOTS, FallbackTeacher(f), FallbackRoom(f));
    TiersRanked(FreeSlots(timetable, FacultyProbes(faculty, subject)),
                FreeSlots(timetable, StudentProbes(student, subject)),
                FreeSlots(timetable, OpenProbes(faculty, subject)));
  }

  /** Three tiers scored 3, 2 and 1, concatenated, are in non-increasing order. */
  lemma TiersRanked(a: seq<Slot>, b: seq<Slot>, c: seq<Slot>)
    requires forall x :: x in a ==> x.score == FACULTY_SCORE
    requires forall x :: x in b ==> x.score == STUDENT_SCORE
    requires forall x :: x in c ==> x.score == OPEN_SCORE
    ensures NonIncreasing(a + b + c, ScoreOf)
  {
    var r := a + b + c;
    forall i | 0 <= i < |r|
      ensures r[i].score == (if i < |a| then FACULTY_SCORE else if i < |a| + |b| then STUDENT_SCORE else OPEN_SCORE)
    {
      if i < |a| { assert r[i] == a[i] && a[i] in a; }
      else if i < |a| + |b| { assert r[i] == b[i - |a|] && b[i - |a|] in b; }
      else { assert r[i] == c[i - |a| - |b|] && c[i - |a| - |b|] in c; }
    }
  }

  lemma ProbesScored(prefs: seq<Preference>, score: int)
    ensures forall c :: c in Probes(prefs, score) ==> c.score == score
  {
    var p := Probes(prefs, score);
    forall c | c in p ensures c.score == score {
      var i :| 0 <= i < |p| && p[i] == c;
    }
  }

  /** Every grid probe has the open score and the given teacher and room, and
      lies on a day of `days` and a time of `times`. */
  lemma {:induction false} GridProbesScored(days: seq<string>, times: seq<string>, teacher: Option<string>, room: Option<string>)
    ensures forall c :: c in GridProbes(days, times, teacher, room) ==>
              c.score == OPEN_SCORE && c.teacher == teacher && c.room == room && c.day in days && c.time in times
    decreases |days|
  {
    if days != [] {
      var init := days[..|days| - 1];
      GridProbesScored(init, times, teacher, room);
      var row := RowProbes(days[|days| - 1], times, teacher, room);
      forall c | c in GridProbes(days, times, teacher, room)
        ensures c.score == OPEN_SCORE && c.teacher == teacher && c.room == room && c.day in days && c.time in times
      {
        if c in GridProbes(init, times, teacher, room) {
          assert c.day in init;
        } else {
          assert c in row;
          var j :| 0 <= j < |row| && row[j] == c;
        }
      }
    }
  }

  /** The grid has one probe per cell. */
  lemma {:induction false} GridProbesLength(days: seq<string>, times: seq<string>, teacher: Option<string>, room: Option<string>)
    ensures |GridProbes(days, times, teacher, room)| == |days| * |times|
    decreases |days|
  {
    if days != [] {
      GridProbesLength(days[..|days| - 1], times, teacher, room);
      assert (|days| - 1) * |times| + |times| == |days| * |times|;
    }
  }

  /** Every cell of `days` x `times` is probed. */
  lemma {:induction false} GridProbesComplete(days: seq<string>, times: seq<string>, teacher: Option<string>, room: Option<string>,
                                              d: nat, t: nat)
    requires d < |days| && t < |times|
    ensures Slot(days[d], times[t], teacher, room, OPEN_SCORE) in GridProbes(days, times, teacher, room)
    decreases |days|
  {
    var init, row := days[..|days| - 1], RowProbes(days[|days| - 1], times, teacher, room);
    if d == |days| - 1 {
      assert row[t] == Slot(days[d], times[t], teacher, room, OPEN_SCORE);
    } else {
      GridProbesComplete(init, times, teacher, room, d, t);
      assert init[d] == days[d];
    }
  }

  /** The open grid a subject falls back to is the 5 x 8 = 40 cells of
      `DAYS` x `TIME_SLOTS`, all probed with the fallback teacher and room. */
  lemma OpenGrid(faculty: Preferences, subject: string)
    ensures |OpenProbes(faculty, subject)| == 40
    ensures var f := SubjectPreferences(faculty, subject);
            forall d, t :: 0 <= d < |DAYS| && 0 <= t < |TIME_SLOTS| ==>
              Slot(DAYS[d], TIME_SLOTS[t], FallbackTeacher(f), FallbackRoom(f), OPEN_SCORE) in OpenProbes(faculty, subject)
  {
    var f := SubjectPreferences(faculty, subject);
    GridProbesLength(DAYS, TIME_SLOTS, FallbackTeacher(f), FallbackRoom(f));
    forall d, t | 0 <= d < |DAYS| && 0 <= t < |TIME_SLOTS|
      ensures Slot(DAYS[d], TIME_SLOTS[t], FallbackTeacher(f), FallbackRoom(f), OPEN_SCORE) in OpenProbes(faculty, subject)
    {
      GridProbesComplete(DAYS, TIME_SLOTS, FallbackTeacher(f), FallbackRoom(f), d, t);
    }
  }

  /** Tier priority: the first candidate is the first free faculty preference;
      failing that the first free student preference; failing that the first
      free grid cell; and the list is empty only when none of these is free. */
  lemma BestCandidate(timetable: seq<Entry>, faculty: Preferences, student: Preferences, subject: string)
    ensures var r := Candidates(timetable, faculty, student, subject);
            var fp, sp, op := FacultyProbes(faculty, subject), StudentProbes(student, subject), OpenProbes(faculty, subject);
            && (r == [] <==> NoneFree(timetable, fp) && NoneFree(timetable, sp) && NoneFree(timetable, op))
            && (forall i :: FirstFreeAt(timetable, fp, i) ==> r[0] == fp[i])
            && (forall i :: NoneFree(timetable, fp) && FirstFreeAt(timetable, sp, i) ==> r[0] == sp[i])
            && (forall i :: NoneFree(timetable, fp) && NoneFree(timetable, sp) && FirstFreeAt(timetable, op, i) ==>
                  r[0] == op[i])
  {
    var fp, sp, op := FacultyProbes(faculty, subject), StudentProbes(student, subject), OpenProbes(faculty, subject);
    FreeSlotsHead(timetable, fp);
    FreeSlotsHead(timetable, sp);
    FreeSlotsHead(timetable, op);
    var a, b, c := FreeSlots(timetable, fp), FreeSlots(timetable, sp), FreeSlots(timetable, op);
    assert Candidates(timetable, faculty, student, subject) == a + b + c;
    forall i | FirstFreeAt(timetable, fp, i) ensures (a + b + c)[0] == fp[i] {
      assert a != [] by { assert !NoneFree(timetable, fp); }
    }
    forall i | NoneFree(timetable, fp) && FirstFreeAt(timetable, sp, i) ensures (a + b + c)[0] == sp[i] {
      assert a == [];
      assert b != [] by { assert !NoneFree(timetable, sp); }
    }
    forall i | NoneFree(timetable, fp) && NoneFree(timetable, sp) && FirstFreeAt(timetable, op, i)
      ensures (a + b + c)[0] == op[i]
    {
      assert a == [] && b == [];
      assert c != [] by { assert !NoneFree(timetable, op); }
    }
  }

  /** The stable sort by descending score leaves the candidate list as it
      is, so the slot taken is the first candidate. */
  lemma BestSlotIsFirst(timetable: seq<Entry>, faculty: Preferences, student: Preferences, subject: string)
    ensures var r := Candidates(timetable, faculty, student, subject);
            SortDesc(r, ScoreOf) == r
  {
    CandidatesRanked(timetable, faculty, student, subject);
    SortDescSortedInput(Candidates(timetable, faculty, student, subject), ScoreOf);
  }

  /** `findAvailableSlots`: the faculty loop, the student loop and the
      nested grid loop, each pushing the free candidates it meets. */
  method FindAvailableSlots(timetable: seq<Entry>, faculty: Preferences, student: Preferences, subject: string)
    returns (slots: seq<Slot>)
    ensures slots == Candidates(timetable, faculty, student, subject)
  {
    var facultySubjectPrefs := SubjectPreferences(faculty, subject);
    var studentSubjectPrefs := SubjectPreferences(student, subject);
    var fromFaculty := FreePreferenceSlots(timetable, facultySubjectPrefs, FACULTY_SCORE);
    var fromStudents := FreePreferenceSlots(timetable, studentSubjectPrefs, STUDENT_SCORE);
    var open := FreeCellSlots(timetable, DAYS, TIME_SLOTS, FallbackTeacher(facultySubjectPrefs), FallbackRoom(facultySubjectPrefs));
    slots := fromFaculty + fromStudents + open;
  }

  /** `for (const pref of prefs) if (isSlotAvailable(...)) availableSlots.push({...})`. */
  method FreePreferenceSlots(timetable: seq<Entry>, prefs: seq<Preference>, score: int) returns (slots: seq<Slot>)
    ensures slots == FreeSlots(timetable, Probes(prefs, score))
  {
    ghost var ps := Probes(prefs, score);
    slots := [];
    for i := 0 to |prefs|
      invariant slots == FreeSlots(timetable, ps[..i])
    {
      PreferenceStep(timetable, prefs, score, i);
      var pref := prefs[i];
      if IsSlotAvailable(timetable, pref.day, pref.time, pref.teacher, pref.room) {
        slots := slots + [Slot(pref.day, pref.time, pref.teacher, pref.room, score)];
      }
    }
    assert ps[..|ps|] == ps;
  }

  /** The nested loop over days and times, probing each cell with one
      teacher and room; it runs on `DAYS` and `TIME_SLOTS`. */
  method FreeCellSlots(timetable: seq<Entry>, days: seq<string>, times: seq<string>,
                       teacher: Option<string>, room: Option<string>) returns (slots: seq<Slot>)
    ensures slots == FreeSlots(timetable, GridProbes(days, times, teacher, room))
  {
    slots := [];
    for d := 0 to |days|
      invariant slots == FreeSlots(timetable, GridProbes(days[..d], times, teacher, room))
    {
      ghost var done := GridProbes(days[..d], times, teacher, room);
      ghost var row := RowProbes(days[d], times, teacher, room);
      assert done + row[..0] == done;
      for t := 0 to |times|
        invariant slots == FreeSlots(timetable, done + row[..t])
      {
        CellStep(timetable, days, times, teacher, room, d, t);
        var day, time := days[d], times[t];
        if IsSlotAvailable(timetable, day, time, teacher, room) {
          slots := slots + [Slot(day, time, teacher, room, OPEN_SCORE)];
        }
      }
      RowDone(days, times, teacher, room, d);
    }
    assert days[..|days|] == days;
  }

  // ---------------------------------------------------------------------------
  // Generation

  /** The entry pushed for `subject` at the chosen slot. */
  function Commit(id: Id, subject: string, c: Slot): Entry {
    Entry(id, subject, c.day, c.time, c.teacher, c.room)
  }

  /** One iteration of the subject loop: with no candidate the subject is
      skipped; otherwise the candidates are sorted by descending score and the
      first is pushed, under the next id of `ids`. */
  function Step(g: Generated, faculty: Preferences, student: Preferences, subject: string, ids: nat -> Id): Generated {
    var slots := Candidates(g.timetable, faculty, student, subject);
    if |slots| == 0 then Generated(g.timetable, g.skipped + [subject])
    else
      var best := SortDesc(slots, ScoreOf)[0];
      Generated(g.timetable + [Commit(ids(|g.timetable|), subject, best)], g.skipped)
  }

  /** The subject loop run over `subjects`, from an empty timetable. */
  function AssignAll(subjects: seq<string>, faculty: Preferences, student: Preferences, ids: nat -> Id): Generated {
    if subjects == [] then Generated([], [])
    else
      Step(AssignAll(subjects[..|subjects| - 1], faculty, student, ids), faculty, student, subjects[|subjects| - 1], ids)
  }

  /** `Object.values(prefs).map(p => p.subject)`. */
  function SubjectNames(prefs: Preferences): (r: seq<string>)
    ensures |r| == |prefs|
    ensures forall i :: 0 <= i < |prefs| ==> r[i] == prefs[i].1.subject
  {
    seq(|prefs|, i requires 0 <= i < |prefs| => prefs[i].1.subject)
  }

  /** The weight the subject sort compares: faculty requests count double. */
  function Priority(faculty: Preferences, student: Preferences, subject: string): (r: int)
    ensures r >= 0
    ensures r == 0 <==>
      (forall j :: 0 <= j < |faculty| ==> faculty[j].1.subject != subject) &&
      (forall j :: 0 <= j < |student| ==> student[j].1.subject != subject)
  {
    SubjectPreferencesFrom(faculty, subject);
    SubjectPreferencesFrom(student, subject);
    var f, s := SubjectPreferences(faculty, subject), SubjectPreferences(student, subject);
    assert f != [] ==> f[0] in f;
    assert s != [] ==> s[0] in s;
    2 * |f| + |s|
  }

  function PriorityKey(faculty: Preferences, student: Preferences): string -> int {
    s => Priority(faculty, student, s)
  }

  /** The distinct subjects, faculty values first, in Set order. */
  function AllSubjects(faculty: Preferences, student: Preferences): (r: seq<string>)
    ensures Distinct(r)
    ensures forall s :: s in r <==> s in SubjectNames(faculty) + SubjectNames(student)
  {
    var names := SubjectNames(faculty) + SubjectNames(student);
    var r := Dedup(names);
    assert forall s :: s in r ==> s in names by {
      forall s | s in r ensures s in names {
        var i :| 0 <= i < |r| && r[i] == s;
      }
    }
    assert forall s :: s in names ==> s in r by {
      forall s | s in names ensures s in r {
        var i :| 0 <= i < |names| && names[i] == s;
      }
    }
    r
  }

  /** The subjects after the stable sort with comparator `bTotal - aTotal`. */
  function SubjectOrder(faculty: Preferences, student: Preferences): (r: seq<string>)
    ensures multiset(r) == multiset(AllSubjects(faculty, student))
  {
    SortDesc(AllSubjects(faculty, student), PriorityKey(faculty, student))
  }

  /** What `generateTimetable` computes, with the skipped subjects made visible. */
  function Schedule(faculty: Preferences, student: Preferences, ids: nat -> Id): Generated {
    AssignAll(SubjectOrder(faculty, student), faculty, student, ids)
  }

  /** Each distinct subject is taken exactly once, in non-increasing priority;
      the subjects of one priority keep their order in the Set, which lists
      them by first appearance among the faculty then student subjects. */
  lemma SubjectOrderProperties(faculty: Preferences, student: Preferences)
    ensures var order, names := SubjectOrder(faculty, student), SubjectNames(faculty) + SubjectNames(student);
            && Distinct(order)
            && (forall s :: s in order <==> s in names)
            && NonIncreasing(order, PriorityKey(faculty, student))
            && (forall k :: WithKey(order, PriorityKey(faculty, student), k)
                         == WithKey(AllSubjects(faculty, student), PriorityKey(faculty, student), k))
            && (forall i, j :: 0 <= i < j < |AllSubjects(faculty, student)| ==>
                  FirstIndex(names, AllSubjects(faculty, student)[i]) < FirstIndex(names, AllSubjects(faculty, student)[j]))
  {
    var all, key := AllSubjects(faculty, student), PriorityKey(faculty, student);
    var order, names := SubjectOrder(faculty, student), SubjectNames(faculty) + SubjectNames(student);
    PermutationDistinct(all, order);
    SortDescSorted(all, key);
    forall k ensures WithKey(order, key, k) == WithKey(all, key, k) {
      SortDescStable(all, key, k);
    }
    DedupFirstAppearance(names);
    assert forall s :: s in order <==> s in multiset(all);
  }

  /** A subject of strictly higher priority is taken earlier: two faculty
      requests (weight 4) go before three student requests (weight 3). */
  lemma HigherPriorityFirst(faculty: Preferences, student: Preferences, i: nat, j: nat)
    requires i < |SubjectOrder(faculty, student)| && j < |SubjectOrder(faculty, student)|
    requires Priority(faculty, student, SubjectOrder(faculty, student)[i]) >
             Priority(faculty, student, SubjectOrder(faculty, student)[j])
    ensures i < j
  {
    SubjectOrderProperties(faculty, student);
  }

  // ---------------------------------------------------------------------------
  // Facts the subject loop maintains

  function SubjectsOf(timetable: seq<Entry>): (r: seq<string>)
    ensures |r| == |timetable|
    ensures forall i :: 0 <= i < |r| ==> r[i] == timetable[i].subject
  {
    seq(|timetable|, i requires 0 <= i < |timetable| => timetable[i].subject)
  }

  /** The two entries share day and time, and the teacher or the room. */
  predicate Conflict(a: Entry, b: Entry) {
    Blocks(a, b.day, b.time, b.teacher, b.room)
  }

  predicate NoConflicts(timetable: seq<Entry>) {
    forall i, j :: 0 <= i < j < |timetable| ==> !Conflict(timetable[i], timetable[j])
  }

  /** Entry `i` took the `i`-th id and the first candidate for its subject,
      given the entries committed before it. */
  predicate CommittedBest(timetable: seq<Entry>, faculty: Preferences, student: Preferences, ids: nat -> Id, i: int)
    requires 0 <= i < |timetable|
  {
    var c := Candidates(timetable[..i], faculty, student, timetable[i].subject);
    c != [] && timetable[i] == Commit(ids(i), timetable[i].subject, c[0])
  }

  /** Everything the subject loop keeps true after handling `subjects`. */
  predicate GoodRun(g: Generated, subjects: seq<string>, faculty: Preferences, student: Preferences, ids: nat -> Id) {
    && NoConflicts(g.timetable)
    && multiset(SubjectsOf(g.timetable) + g.skipped) == multiset(subjects)
    && (forall i :: 0 <= i < |g.timetable| ==> CommittedBest(g.timetable, faculty, student, ids, i))
    && (forall s :: s in g.skipped ==> Candidates(g.timetable, faculty, student, s) == [])
  }

  /** A probe list with nothing free stays so when an entry is added. */
  lemma FreeSlotsShrink(timetable: seq<Entry>, e: Entry, probes: seq<Slot>)
    requires FreeSlots(timetable, probes) == []
    ensures FreeSlots(timetable + [e], probes) == []
  {
    FreeSlotsHead(timetable, probes);
    FreeSlotsHead(timetable + [e], probes);
    forall j | 0 <= j < |probes| ensures !Free(timetable + [e], probes[j]) {
      IsSlotAvailableAppend(timetable, e, probes[j]);
    }
  }

  lemma CandidatesShrink(timetable: seq<Entry>, e: Entry, faculty: Preferences, student: Preferences, subject: string)
    requires Candidates(timetable, faculty, student, subject) == []
    ensures Candidates(timetable + [e], faculty, student, subject) == []
  {
    FreeSlotsShrink(timetable, e, FacultyProbes(faculty, subject));
    FreeSlotsShrink(timetable, e, StudentProbes(student, subject));
    FreeSlotsShrink(timetable, e, OpenProbes(faculty, subject));
  }

  /** A committed candidate does not conflict with any earlier entry. */
  lemma CommitNoConflict(timetable: seq<Entry>, id: Id, subject: string, c: Slot)
    requires NoConflicts(timetable) && Free(timetable, c)
    ensures NoConflicts(timetable + [Commit(id, subject, c)])
  {
    var t := timetable + [Commit(id, subject, c)];
    IsSlotAvailableIff(timetable, c.day, c.time, c.teacher, c.room);
    forall i, j | 0 <= i < j < |t| ensures !Conflict(t[i], t[j]) {
      assert t[i] == timetable[i];
      if j < |timetable| {
        assert t[j] == timetable[j];
      } else {
        assert !Blocks(timetable[i], c.day, c.time, c.teacher, c.room);
      }
    }
  }

  /** The first candidate of a non-empty list is free. */
  lemma FirstCandidateFree(timetable: seq<Entry>, faculty: Preferences, student: Preferences, subject: string)
    requires Candidates(timetable, faculty, student, subject) != []
    ensures Free(timetable, Candidates(timetable, faculty, student, subject)[0])
  {
    var a := FreeSlots(timetable, FacultyProbes(faculty, subject));
    var b := FreeSlots(timetable, StudentProbes(student, subject));
    var c := FreeSlots(timetable, OpenProbes(faculty, subject));
    var r := a + b + c;
    assert r[0] in a || r[0] in b || r[0] in c;
  }

  lemma StepGood(g: Generated, subjects: seq<string>, faculty: Preferences, student: Preferences, subject: string, ids: nat -> Id)
    requires GoodRun(g, subjects, faculty, student, ids)
    ensures GoodRun(Step(g, faculty, student, subject, ids), subjects + [subject], faculty, student, ids)
  {
    var tt := g.timetable;
    var slots := Candidates(tt, faculty, student, subject);
    if |slots| == 0 {
      assert Step(g, faculty, student, subject, ids) == Generated(tt, g.skipped + [subject]);
      SkipGood(g, subjects, faculty, student, subject, ids);
    } else {
      BestSlotIsFirst(tt, faculty, student, subject);
      assert Step(g, faculty, student, subject, ids) == Generated(tt + [Commit(ids(|tt|), subject, slots[0])], g.skipped);
      CommitGood(g, subjects, faculty, student, subject, ids);
    }
  }

  lemma SkipGood(g: Generated, subjects: seq<string>, faculty: Preferences, student: Preferences, subject: string, ids: nat -> Id)
    requires GoodRun(g, subjects, faculty, student, ids)
    requires Candidates(g.timetable, faculty, student, subject) == []
    ensures GoodRun(Generated(g.timetable, g.skipped + [subject]), subjects + [subject], faculty, student, ids)
  {
    assert SubjectsOf(g.timetable) + (g.skipped + [subject]) == (SubjectsOf(g.timetable) + g.skipped) + [subject];
  }

  lemma CommitGood(g: Generated, subjects: seq<string>, faculty: Preferences, student: Preferences, subject: string, ids: nat -> Id)
    requires GoodRun(g, subjects, faculty, student, ids)
    requires Candidates(g.timetable, faculty, student, subject) != []
    ensures var tt := g.timetable;
            var e := Commit(ids(|tt|), subject, Candidates(tt, faculty, student, subject)[0]);
            GoodRun(Generated(tt + [e], g.skipped), subjects + [subject], faculty, student, ids)
  {
    var tt := g.timetable;
    var slots := Candidates(tt, faculty, student, subject);
    FirstCandidateFree(tt, faculty, student, subject);
    var e := Commit(ids(|tt|), subject, slots[0]);
    CommitNoConflict(tt, ids(|tt|), subject, slots[0]);
    CommitKeepsBest(tt, faculty, student, ids, subject);
    CommitKeepsSkipped(tt, e, g.skipped, faculty, student);
    assert SubjectsOf(tt + [e]) == SubjectsOf(tt) + [subject];
    assert multiset(SubjectsOf(tt + [e]) + g.skipped) == multiset(SubjectsOf(tt) + g.skipped) + multiset{subject};
  }

  lemma CommitKeepsBest(tt: seq<Entry>, faculty: Preferences, student: Preferences, ids: nat -> Id, subject: string)
    requires forall i :: 0 <= i < |tt| ==> CommittedBest(tt, faculty, student, ids, i)
    requires Candidates(tt, faculty, student, subject) != []
    ensures var t := tt + [Commit(ids(|tt|), subject, Candidates(tt, faculty, student, subject)[0])];
            forall i :: 0 <= i < |t| ==> CommittedBest(t, faculty, student, ids, i)
  {
    var t := tt + [Commit(ids(|tt|), subject, Candidates(tt, faculty, student, subject)[0])];
    forall i | 0 <= i < |t| ensures CommittedBest(t, faculty, student, ids, i) {
      if i < |tt| {
        assert t[..i] == tt[..i] && t[i] == tt[i];
        assert CommittedBest(tt, faculty, student, ids, i);
      } else {
        assert t[..i] == tt;
      }
    }
  }

  lemma CommitKeepsSkipped(tt: seq<Entry>, e: Entry, skipped: seq<string>, faculty: Preferences, student: Preferences)
    requires forall s :: s in skipped ==> Candidates(tt, faculty, student, s) == []
    ensures forall s :: s in skipped ==> Candidates(tt + [e], faculty, student, s) == []
  {
    forall s | s in skipped ensures Candidates(tt + [e], faculty, student, s) == [] {
      CandidatesShrink(tt, e, faculty, student, s);
    }
  }

  lemma {:induction false} AssignAllGood(subjects: seq<string>, faculty: Preferences, student: Preferences, ids: nat -> Id)
    ensures GoodRun(AssignAll(subjects, faculty, student, ids), subjects, faculty, student, ids)
    decreases |subjects|
  {
    if subjects != [] {
      var init, last := subjects[..|subjects| - 1], subjects[|subjects| - 1];
      assert init + [last] == subjects;
      var g := AssignAll(init, faculty, student, ids);
      assert AssignAll(subjects, faculty, student, ids) == Step(g, faculty, student, last, ids);
      AssignAllGood(init, faculty, student, ids);
      StepGood(g, init, faculty, student, last, ids);
    }
  }

  // ---------------------------------------------------------------------------
  // What a generation run guarantees

  /** The generated timetable has no teacher or room conflicts. */
  lemma ScheduleNoConflicts(faculty: Preferences, student: Preferences, ids: nat -> Id)
    ensures NoConflicts(Schedule(faculty, student, ids).timetable)
  {
    AssignAllGood(SubjectOrder(faculty, student), faculty, student, ids);
  }

  /** One entry per subject: every distinct subject is either committed once or
      skipped, never both; each committed subject is named by some preference;
      and the timetable is no longer than the list of distinct subjects. */
  lemma ScheduleOnePerSubject(faculty: Preferences, student: Preferences, ids: nat -> Id)
    ensures var g, order := Schedule(faculty, student, ids), SubjectOrder(faculty, student);
            && Distinct(SubjectsOf(g.timetable) + g.skipped)
            && (forall s :: s in SubjectsOf(g.timetable) + g.skipped <==> s in order)
            && (forall i :: 0 <= i < |g.timetable| ==>
                  g.timetable[i].subject in SubjectNames(faculty) + SubjectNames(student))
            && |g.timetable| + |g.skipped| == |AllSubjects(faculty, student)|
  {
    var g := Schedule(faculty, student, ids);
    ScheduleAccounts(faculty, student, ids);
    OutputAccounts(g.timetable, g.skipped, SubjectOrder(faculty, student), SubjectNames(faculty) + SubjectNames(student));
  }

  lemma OutputAccounts(timetable: seq<Entry>, skipped: seq<string>, order: seq<string>, names: seq<string>)
    requires multiset(SubjectsOf(timetable) + skipped) == multiset(order) && Distinct(order)
    requires forall s :: s in order <==> s in names
    ensures Distinct(SubjectsOf(timetable) + skipped)
    ensures forall s :: s in SubjectsOf(timetable) + skipped <==> s in order
    ensures forall i :: 0 <= i < |timetable| ==> timetable[i].subject in names
    ensures |timetable| + |skipped| == |order|
  {
    var out := SubjectsOf(timetable) + skipped;
    SameElements(order, out);
    forall i | 0 <= i < |timetable| ensures timetable[i].subject in names {
      assert out[i] == timetable[i].subject && out[i] in out;
    }
  }

  lemma ScheduleAccounts(faculty: Preferences, student: Preferences, ids: nat -> Id)
    ensures var g, order := Schedule(faculty, student, ids), SubjectOrder(faculty, student);
            && multiset(SubjectsOf(g.timetable) + g.skipped) == multiset(order)
            && Distinct(order)
            && forall s :: s in order <==> s in SubjectNames(faculty) + SubjectNames(student)
  {
    AssignAllGood(SubjectOrder(faculty, student), faculty, student, ids);
    SubjectOrderProperties(faculty, student);
  }

  /** A rearrangement of a sequence without repetitions has none either, the
      same elements and the same length. */
  lemma SameElements(a: seq<string>, b: seq<string>)
    requires Distinct(a) && multiset(a) == multiset(b)
    ensures Distinct(b) && |b| == |a|
    ensures forall s :: s in b <==> s in a
  {
    PermutationDistinct(a, b);
    assert |b| == |multiset(b)| == |multiset(a)| == |a|;
    forall s ensures s in b <==> s in a {
      assert s in b <==> s in multiset(a);
    }
  }

  /** Entry `i` carries the `i`-th generated id, and its slot is chosen by tier
      against the entries before it: the first free faculty preference for its
      subject; failing that the first free student preference; failing that
      the first free grid cell. */
  lemma ScheduleTierPriority(faculty: Preferences, student: Preferences, ids: nat -> Id, i: nat)
    requires i < |Schedule(faculty, student, ids).timetable|
    ensures var tt := Schedule(faculty, student, ids).timetable;
            var before, subject := tt[..i], tt[i].subject;
            var fp, sp, op := FacultyProbes(faculty, subject), StudentProbes(student, subject), OpenProbes(faculty, subject);
            && tt[i].id == ids(i)
            && (forall k :: FirstFreeAt(before, fp, k) ==> tt[i] == Commit(ids(i), subject, fp[k]))
            && (forall k :: NoneFree(before, fp) && FirstFreeAt(before, sp, k) ==> tt[i] == Commit(ids(i), subject, sp[k]))
            && (forall k :: NoneFree(before, fp) && NoneFree(before, sp) && FirstFreeAt(before, op, k) ==>
                  tt[i] == Commit(ids(i), subject, op[k]))
  {
    var tt := Schedule(faculty, student, ids).timetable;
    AssignAllGood(SubjectOrder(faculty, student), faculty, student, ids);
    assert CommittedBest(tt, faculty, student, ids, i);
    BestCandidate(tt[..i], faculty, student, tt[i].subject);
  }

  /** A skipped subject had no candidate at its turn, against the entries the
      subject loop had committed before it. */
  lemma {:induction false} SkippedAtItsTurn(subjects: seq<string>, faculty: Preferences, student: Preferences,
                                            ids: nat -> Id, s: string)
    requires s in AssignAll(subjects, faculty, student, ids).skipped
    ensures exists k :: 0 <= k < |subjects| && subjects[k] == s &&
              Candidates(AssignAll(subjects[..k], faculty, student, ids).timetable, faculty, student, s) == []
    decreases |subjects|, 1
  {
    var n := |subjects| - 1;
    var g := AssignAll(subjects[..n], faculty, student, ids);
    assert subjects[..n + 1] == subjects;
    AssignAllSnoc(subjects, n, faculty, student, ids);
    StepSkipped(g, faculty, student, subjects[n], ids);
    if s in g.skipped {
      SkippedEarlier(subjects, faculty, student, ids, s);
    } else {
      TurnWitness(subjects, n, faculty, student, ids, s);
    }
  }

  /** The induction step of `SkippedAtItsTurn`: a subject skipped before the
      last one was skipped at its turn in the shorter run. */
  lemma {:induction false} SkippedEarlier(subjects: seq<string>, faculty: Preferences, student: Preferences,
                                          ids: nat -> Id, s: string)
    requires subjects != []
    requires s in AssignAll(subjects[..|subjects| - 1], faculty, student, ids).skipped
    ensures exists k :: 0 <= k < |subjects| && subjects[k] == s &&
              Candidates(AssignAll(subjects[..k], faculty, student, ids).timetable, faculty, student, s) == []
    decreases |subjects|, 0
  {
    var n := |subjects| - 1;
    var init := subjects[..n];
    SkippedAtItsTurn(init, faculty, student, ids, s);
    var k :| 0 <= k < |init| && init[k] == s &&
             Candidates(AssignAll(init[..k], faculty, student, ids).timetable, faculty, student, s) == [];
    PrefixOfPrefix(subjects, n, k);
    TurnWitness(subjects, k, faculty, student, ids, s);
  }

  lemma TurnWitness(subjects: seq<string>, k: nat, faculty: Preferences, student: Preferences, ids: nat -> Id, s: string)
    requires k < |subjects| && subjects[k] == s
    requires Candidates(AssignAll(subjects[..k], faculty, student, ids).timetable, faculty, student, s) == []
    ensures exists k :: 0 <= k < |subjects| && subjects[k] == s &&
              Candidates(AssignAll(subjects[..k], faculty, student, ids).timetable, faculty, student, s) == []
  {
  }

  lemma PrefixOfPrefix(s: seq<string>, n: nat, k: nat)
    requires k <= n <= |s|
    ensures s[..n][..k] == s[..k]
  {
  }

  /** What one iteration adds to the skipped subjects. */
  lemma StepSkipped(g: Generated, faculty: Preferences, student: Preferences, subject: string, ids: nat -> Id)
    ensures Step(g, faculty, student, subject, ids).skipped ==
            if Candidates(g.timetable, faculty, student, subject) == [] then g.skipped + [subject] else g.skipped
  {
  }

  /** A subject is skipped only when, at its turn in the sorted order, none of
      its faculty or student probes is free and no grid cell is free for the
      fallback teacher and room, against the entries committed before it. */
  lemma ScheduleSkippedAtTurn(faculty: Preferences, student: Preferences, ids: nat -> Id, s: string)
    requires s in Schedule(faculty, student, ids).skipped
    ensures var order := SubjectOrder(faculty, student);
            exists k :: 0 <= k < |order| && order[k] == s &&
              var before := AssignAll(order[..k], faculty, student, ids).timetable;
              && NoneFree(before, FacultyProbes(faculty, s))
              && NoneFree(before, StudentProbes(student, s))
              && NoneFree(before, OpenProbes(faculty, s))
  {
    var order := SubjectOrder(faculty, student);
    SkippedAtItsTurn(order, faculty, student, ids, s);
    var k :| 0 <= k < |order| && order[k] == s &&
             Candidates(AssignAll(order[..k], faculty, student, ids).timetable, faculty, student, s) == [];
    BestCandidate(AssignAll(order[..k], faculty, student, ids).timetable, faculty, student, s);
  }

  /** A subject is skipped only when, even in the final timetable, none of its
      faculty or student preferences is free and no grid cell is free for the
      fallback teacher and room. */
  lemma ScheduleSkipped(faculty: Preferences, student: Preferences, ids: nat -> Id)
    ensures var g := Schedule(faculty, student, ids);
            forall s :: s in g.skipped ==>
              && s in SubjectOrder(faculty, student)
              && NoneFree(g.timetable, FacultyProbes(faculty, s))
              && NoneFree(g.timetable, StudentProbes(student, s))
              && NoneFree(g.timetable, OpenProbes(faculty, s))
              && NoPreferenceFree(g.timetable, faculty, s, FACULTY_SCORE)
              && NoPreferenceFree(g.timetable, student, s, STUDENT_SCORE)
  {
    var g := Schedule(faculty, student, ids);
    AssignAllGood(SubjectOrder(faculty, student), faculty, student, ids);
    forall s | s in g.skipped
      ensures s in SubjectOrder(faculty, student)
      ensures NoneFree(g.timetable, FacultyProbes(faculty, s))
      ensures NoneFree(g.timetable, StudentProbes(student, s))
      ensures NoneFree(g.timetable, OpenProbes(faculty, s))
      ensures NoPreferenceFree(g.timetable, faculty, s, FACULTY_SCORE)
      ensures NoPreferenceFree(g.timetable, student, s, STUDENT_SCORE)
    {
      assert s in multiset(SubjectsOf(g.timetable) + g.skipped);
      BestCandidate(g.timetable, faculty, student, s);
      NoneFreePreferences(g.timetable, faculty, s, FACULTY_SCORE);
      NoneFreePreferences(g.timetable, student, s, STUDENT_SCORE);
    }
  }

  /** No submitted preference naming `subject` is free. */
  predicate NoPreferenceFree(timetable: seq<Entry>, prefs: Preferences, subject: string, score: int) {
    forall j :: 0 <= j < |prefs| && prefs[j].1.subject == subject ==> !Free(timetable, SlotOf(prefs[j].1, score))
  }

  /** Nothing free among a subject's probes means that no submitted
      preference naming the subject is free. */
  lemma NoneFreePreferences(timetable: seq<Entry>, prefs: Preferences, subject: string, score: int)
    requires NoneFree(timetable, Probes(SubjectPreferences(prefs, subject), score))
    ensures NoPreferenceFree(timetable, prefs, subject, score)
  {
    var f := SubjectPreferences(prefs, subject);
    forall j | 0 <= j < |prefs| && prefs[j].1.subject == subject
      ensures !Free(timetable, SlotOf(prefs[j].1, score))
    {
      var k :| 0 <= k < |f| && f[k] == prefs[j].1;
      assert Probes(f, score)[k] == SlotOf(prefs[j].1, score);
    }
  }

  /** A single faculty preference and no student preference: the subject is
      placed exactly where that preference asks, under the first id, and
      nothing is skipped. */
  lemma LoneFacultyPreference(id: Id, p: Preference, ids: nat -> Id)
    ensures Schedule([(id, p)], [], ids) == Generated([Commit(ids(0), p.subject, SlotOf(p, FACULTY_SCORE))], [])
  {
    var f: Preferences, none: Preferences, s := [(id, p)], [], p.subject;
    assert SubjectNames(f) + SubjectNames(none) == [s];
    assert [s][..0] == [];
    assert AllSubjects(f, none) == [s];
    assert SubjectOrder(f, none) == [s];
    assert AssignAll([s], f, none, ids) == Step(Generated([], []), f, none, s, ids);
    assert f[1..] == [];
    assert SubjectPreferences(f, s) == [p];
    var c := SlotOf(p, FACULTY_SCORE);
    assert FacultyProbes(f, s) == [c];
    assert Free([], c);
    assert FreeSlots([], [c]) == [c];
    var slots := Candidates([], f, none, s);
    assert slots[0] == c;
    BestSlotIsFirst([], f, none, s);
  }

  /** One faculty preference for Math on Monday at 9:00 AM with Dr. A in R1
      gives exactly that entry and no warning. */
  lemma MathScenario(ids: nat -> Id)
    ensures var p := Preference("Math", "Monday", "9:00 AM", Some("Dr. A"), Some("R1"));
            Schedule([("f1", p)], [], ids) ==
              Generated([Entry(ids(0), "Math", "Monday", "9:00 AM", Some("Dr. A"), Some("R1"))], [])
  {
    LoneFacultyPreference("f1", Preference("Math", "Monday", "9:00 AM", Some("Dr. A"), Some("R1")), ids);
  }

  /** Every preference lies on the fixed grid. */
  predicate OnGrid(prefs: Preferences) {
    forall i :: 0 <= i < |prefs| ==> prefs[i].1.day in DAYS && prefs[i].1.time in TIME_SLOTS
  }

  lemma CandidatesOnGrid(timetable: seq<Entry>, faculty: Preferences, student: Preferences, subject: string)
    requires OnGrid(faculty) && OnGrid(student)
    ensures forall c :: c in Candidates(timetable, faculty, student, subject) ==> c.day in DAYS && c.time in TIME_SLOTS
  {
    var f := SubjectPreferences(faculty, subject);
    SubjectPreferencesFrom(faculty, subject);
    SubjectPreferencesFrom(student, subject);
    GridProbesScored(DAYS, TIME_SLOTS, FallbackTeacher(f), FallbackRoom(f));
    ProbesOnGrid(faculty, subject, FACULTY_SCORE);
    ProbesOnGrid(student, subject, STUDENT_SCORE);
  }

  lemma ProbesOnGrid(prefs: Preferences, subject: string, score: int)
    requires OnGrid(prefs)
    ensures forall c :: c in Probes(SubjectPreferences(prefs, subject), score) ==> c.day in DAYS && c.time in TIME_SLOTS
  {
    var ps := SubjectPreferences(prefs, subject);
    SubjectPreferencesFrom(prefs, subject);
    forall c | c in Probes(ps, score) ensures c.day in DAYS && c.time in TIME_SLOTS {
      var i :| 0 <= i < |ps| && Probes(ps, score)[i] == c;
      assert ps[i] in ps;
      var j :| 0 <= j < |prefs| && prefs[j].1 == ps[i];
    }
  }

  /** When every preference names a day of `DAYS` and a time of `TIME_SLOTS`,
      so does every generated entry. */
  lemma ScheduleOnGrid(faculty: Preferences, student: Preferences, ids: nat -> Id)
    requires OnGrid(faculty) && OnGrid(student)
    ensures forall e :: e in Schedule(faculty, student, ids).timetable ==> e.day in DAYS && e.time in TIME_SLOTS
  {
    var tt := Schedule(faculty, student, ids).timetable;
    AssignAllGood(SubjectOrder(faculty, student), faculty, student, ids);
    forall e | e in tt ensures e.day in DAYS && e.time in TIME_SLOTS {
      var i :| 0 <= i < |tt| && tt[i] == e;
      assert CommittedBest(tt, faculty, student, ids, i);
      CandidatesOnGrid(tt[..i], faculty, student, e.subject);
      assert Candidates(tt[..i], faculty, student, e.subject)[0] in Candidates(tt[..i], faculty, student, e.subject);
    }
  }

  lemma AssignAllSnoc(subjects: seq<string>, k: nat, faculty: Preferences, student: Preferences, ids: nat -> Id)
    requires k < |subjects|
    ensures AssignAll(subjects[..k + 1], faculty, student, ids)
         == Step(AssignAll(subjects[..k], faculty, student, ids), faculty, student, subjects[k], ids)
  {
    assert subjects[..k + 1][..k] == subjects[..k];
  }

  /** `generateTimetable`: build the ordered subject list, then for each
      subject search, sort, and push the best slot or skip it. */
  method GenerateTimetable(faculty: Preferences, student: Preferences, ids: nat -> Id)
    returns (timetable: seq<Entry>, skipped: seq<string>)
    ensures Generated(timetable, skipped) == Schedule(faculty, student, ids)
  {
    var subjects := Dedup(SubjectNames(faculty) + SubjectNames(student));
    subjects := SortDesc(subjects, PriorityKey(faculty, student));
    timetable, skipped := [], [];
    for k := 0 to |subjects|
      invariant Generated(timetable, skipped) == AssignAll(subjects[..k], faculty, student, ids)
    {
      AssignAllSnoc(subjects, k, faculty, student, ids);
      var subject := subjects[k];
      var availableSlots := FindAvailableSlots(timetable, faculty, student, subject);
      if |availableSlots| == 0 {
        skipped := skipped + [subject];
        continue;
      }
      availableSlots := SortDesc(availableSlots, ScoreOf);
      var bestSlot := availableSlots[0];
      timetable := timetable + [Entry(ids(|timetable|), subject, bestSlot.day, bestSlot.time, bestSlot.teacher, bestSlot.room)];
    }
    assert subjects[..|subjects|] == subjects;
  }

  // ---------------------------------------------------------------------------
  // Validation

  function TeacherMessage(e: Entry): string {
    "Teacher conflict: " + Show(e.teacher) + " has two classes at " + e.time + " on " + e.day
  }

  function RoomMessage(e: Entry): string {
    "Room conflict: Room " + Show(e.room) + " has two classes at " + e.time + " on " + e.day
  }

  predicate TeacherClash(a: Entry, b: Entry) {
    a.day == b.day && a.time == b.time && a.teacher == b.teacher
  }

  predicate RoomClash(a: Entry, b: Entry) {
    a.day == b.day && a.time == b.time && a.room == b.room
  }

  /** The messages for one pair: the teacher check, then the room check, both
      worded with the first entry of the pair. */
  function PairMessages(a: Entry, b: Entry): (r: seq<string>)
    ensures |r| <= 2
    ensures r == [] <==> !Conflict(a, b)
    ensures |r| == (if TeacherClash(a, b) then 1 else 0) + (if RoomClash(a, b) then 1 else 0)
    ensures TeacherClash(a, b) ==> r[0] == TeacherMessage(a)
    ensures RoomClash(a, b) ==> r[|r| - 1] == RoomMessage(a)
  {
    (if TeacherClash(a, b) then [TeacherMessage(a)] else []) + (if RoomClash(a, b) then [RoomMessage(a)] else [])
  }

  /** The blocks pushed by the inner loop for entry `i`: one per later entry. */
  function PairRow(timetable: seq<Entry>, i: nat): (r: seq<seq<string>>)
    requires i < |timetable|
    ensures |r| == |timetable| - i - 1
    ensures forall q :: 0 <= q < |r| ==> r[q] == PairMessages(timetable[i], timetable[i + 1 + q])
  {
    seq(|timetable| - i - 1, q requires 0 <= q < |timetable| - i - 1 => PairMessages(timetable[i], timetable[i + 1 + q]))
  }

  /** What the inner loop pushes for entry `i`. */
  function RowMessages(timetable: seq<Entry>, i: nat): seq<string>
    requires i < |timetable|
  {
    Concat(PairRow(timetable, i))
  }

  function Rows(timetable: seq<Entry>): (r: seq<seq<string>>)
    ensures |r| == |timetable|
    ensures forall i :: 0 <= i < |r| ==> r[i] == RowMessages(timetable, i)
  {
    seq(|timetable|, i requires 0 <= i < |timetable| => RowMessages(timetable, i))
  }

  /** All the messages `validateTimetable` returns, row after row. */
  function ConflictMessages(timetable: seq<Entry>): seq<string> {
    Concat(Rows(timetable))
  }

  /** Entry `i` conflicts with no later entry. */
  predicate RowClear(timetable: seq<Entry>, i: nat)
    requires i < |timetable|
  {
    forall k :: i < k < |timetable| ==> !Conflict(timetable[i], timetable[k])
  }

  lemma RowMessagesEmpty(timetable: seq<Entry>, i: nat)
    requires i < |timetable|
    ensures RowMessages(timetable, i) == [] <==> RowClear(timetable, i)
  {
    var r := PairRow(timetable, i);
    ConcatEmpty(r);
    if !RowClear(timetable, i) {
      var k :| i < k < |timetable| && Conflict(timetable[i], timetable[k]);
      assert r[k - i - 1] != [];
    }
  }

  lemma RowMessagesBound(timetable: seq<Entry>, i: nat)
    requires i < |timetable|
    ensures |RowMessages(timetable, i)| <= 2 * (|timetable| - i - 1)
  {
    ConcatBound(PairRow(timetable, i), 2);
  }

  /** Blocks of at most `b` elements each concatenate to at most `|rs| * b`. */
  lemma {:induction false} ConcatBound(rs: seq<seq<string>>, b: nat)
    requires forall p :: 0 <= p < |rs| ==> |rs[p]| <= b
    ensures |Concat(rs)| <= |rs| * b
  {
    if rs != [] {
      ConcatBound(rs[1..], b);
      assert b + (|rs| - 1) * b == |rs| * b;
    }
  }

  /** A message of row `i` is a message of a pair `(i, k)` with `k > i`, and
      every such pair's messages are in the row. */
  lemma RowMessagesMember(timetable: seq<Entry>, i: nat, m: string)
    requires i < |timetable|
    ensures m in RowMessages(timetable, i) <==>
            exists k :: i < k < |timetable| && m in PairMessages(timetable[i], timetable[k])
  {
    var r := PairRow(timetable, i);
    ConcatMember(r, m);
    if m in RowMessages(timetable, i) {
      var q :| 0 <= q < |r| && m in r[q];
      assert i < i + 1 + q < |timetable| && m in PairMessages(timetable[i], timetable[i + 1 + q]);
    }
    if exists k :: i < k < |timetable| && m in PairMessages(timetable[i], timetable[k]) {
      var k :| i < k < |timetable| && m in PairMessages(timetable[i], timetable[k]);
      assert m in r[k - i - 1];
    }
  }

  /** The validator reports nothing exactly when no two entries conflict. */
  lemma ConflictMessagesEmpty(timetable: seq<Entry>)
    ensures ConflictMessages(timetable) == [] <==> NoConflicts(timetable)
  {
    var rows := Rows(timetable);
    ConcatEmpty(rows);
    forall i | 0 <= i < |timetable| ensures rows[i] == [] <==> RowClear(timetable, i) {
      RowMessagesEmpty(timetable, i);
    }
    if NoConflicts(timetable) {
      forall i | 0 <= i < |timetable| ensures RowClear(timetable, i) { }
    } else {
      var i, j :| 0 <= i < j < |timetable| && Conflict(timetable[i], timetable[j]);
      assert !RowClear(timetable, i);
    }
  }

  /** Each reported message belongs to some pair `i < j`, and every message
      of such a pair is reported. */
  lemma ConflictMessagesMember(timetable: seq<Entry>, m: string)
    ensures m in ConflictMessages(timetable) <==>
            exists i, j :: 0 <= i < j < |timetable| && m in PairMessages(timetable[i], timetable[j])
  {
    var rows := Rows(timetable);
    ConcatMember(rows, m);
    if m in ConflictMessages(timetable) {
      var i :| 0 <= i < |rows| && m in rows[i];
      RowMessagesMember(timetable, i, m);
      var j :| i < j < |timetable| && m in PairMessages(timetable[i], timetable[j]);
    }
    if exists i, j :: 0 <= i < j < |timetable| && m in PairMessages(timetable[i], timetable[j]) {
      var i, j :| 0 <= i < j < |timetable| && m in PairMessages(timetable[i], timetable[j]);
      RowMessagesMember(timetable, i, m);
      assert m in rows[i];
    }
  }

  /** At most two messages per pair: at most `n * (n - 1)` in all, and none
      when `n <= 1`. */
  lemma ConflictMessagesBound(timetable: seq<Entry>)
    ensures |ConflictMessages(timetable)| <= |timetable| * (|timetable| - 1)
    ensures |timetable| <= 1 ==> ConflictMessages(timetable) == []
  {
    var rows := Rows(timetable);
    forall i | 0 <= i < |rows| ensures |rows[i]| <= 2 * (|rows| - i - 1) {
      RowMessagesBound(timetable, i);
    }
    ConcatTriangle(rows);
  }

  /** Validating a generated timetable reports nothing. */
  lemma ScheduleValidates(faculty: Preferences, student: Preferences, ids: nat -> Id)
    ensures ConflictMessages(Schedule(faculty, student, ids).timetable) == []
  {
    ScheduleNoConflicts(faculty, student, ids);
    ConflictMessagesEmpty(Schedule(faculty, student, ids).timetable);
  }

  /** `validateTimetable`: the outer loop over `i`; the inner loop over
      `j > i` is `RowConflicts`. */
  method ValidateTimetable(timetable: seq<Entry>) returns (errors: seq<string>)
    ensures errors == ConflictMessages(timetable)
  {
    ghost var rows := Rows(timetable);
    errors := [];
    for i := 0 to |timetable|
      invariant errors == Concat(rows[..i])
    {
      var rowErrors := RowConflicts(timetable, i);
      assert rows[..i + 1] == rows[..i] + [rows[i]];
      ConcatSnoc(rows[..i], rows[i]);
      errors := errors + rowErrors;
    }
    assert rows[..|timetable|] == rows;
  }

  /** The inner loop of `validateTimetable` for entry `i`: the teacher check,
      then the room check, for each later entry. */
  method RowConflicts(timetable: seq<Entry>, i: nat) returns (errors: seq<string>)
    requires i < |timetable|
    ensures errors == RowMessages(timetable, i)
  {
    ghost var pairs := PairRow(timetable, i);
    errors := [];
    for j := i + 1 to |timetable|
      invariant errors == Concat(pairs[..j - i - 1])
    {
      ghost var before := errors;
      var entry1, entry2 := timetable[i], timetable[j];
      if entry1.day == entry2.day && entry1.time == entry2.time && entry1.teacher == entry2.teacher {
        errors := errors + [TeacherMessage(entry1)];
      }
      if entry1.day == entry2.day && entry1.time == entry2.time && entry1.room == entry2.room {
        errors := errors + [RoomMessage(entry1)];
      }
      assert errors == before + pairs[j - i - 1];
      assert pairs[..j - i] == pairs[..j - i - 1] + [pairs[j - i - 1]];
      ConcatSnoc(pairs[..j - i - 1], pairs[j - i - 1]);
    }
    assert pairs[..|timetable| - i - 1] == pairs;
  }
}
