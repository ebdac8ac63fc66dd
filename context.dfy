/** The timetable logic embedded in the React context provider
    (`src/contexts/TimetableContext.jsx`): validating a manually entered
    record against the day buckets, grouping a stored entry list into day
    buckets, deleting a record by id, rendering a 24-hour time in 12-hour
    form, and the finalize/approve workflow flags. */
module TimetableContext {
  import opened Wrappers
  import opened JsNumber

  /** A record id as the source compares it with `!==`: missing, a number
      (`Date.now()` for manually added records) or a string (ids written by
      the generator or by Firestore). A number never equals a string and two
      missing ids are equal. */
  datatype RecordId = NoId | Num(n: int) | Text(s: string)

  /** One timetable record; any field may be missing. */
  datatype Record = Record(id: RecordId, subject: Option<string>, teacher: Option<string>,
                           day: Option<string>, time: Option<string>, room: Option<string>)

  /** `timetableData`: records grouped under the property named by their day. */
  type Buckets = map<string, seq<Record>>

  /** The property name under which a day is stored; a missing day becomes
      the key "undefined". */
  function DayKey(day: Option<string>): string {
    Show(day)
  }

  /** The bucket stored under `key`, or none. */
  function Bucket(data: Buckets, key: string): seq<Record> {
    if key in data then data[key] else []
  }

  // ---------------------------------------------------------------------
  // validateEntry
  // ---------------------------------------------------------------------

  const MISSING_FIELDS := "Missing required fields"
  const SLOT_OCCUPIED := "Time slot is already occupied"
  const TEACHER_BUSY := "Teacher is already scheduled for this time"

  /** What `validateEntry` does: return `true`, or throw an error with a
      message. */
  datatype Verdict = Accepted | Rejected(message: string)

  /** A missing field or an empty string is falsy. */
  predicate Falsy(v: Option<string>) {
    v.None? || v.value == ""
  }

  predicate MissingField(e: Record) {
    Falsy(e.subject) || Falsy(e.teacher) || Falsy(e.day) || Falsy(e.time)
  }

  /** `existing` is another record (by id) in the same day and time as `e`. */
  predicate SlotClash(existing: Record, e: Record) {
    existing.id != e.id && existing.day == e.day && existing.time == e.time
  }

  /** `existing` is another record in the same slot with the same teacher. */
  predicate TeacherClash(existing: Record, e: Record) {
    SlotClash(existing, e) && existing.teacher == e.teacher
  }

  predicate SlotTaken(data: Buckets, e: Record) {
    exists d, k :: d in data && 0 <= k < |data[d]| && SlotClash(data[d][k], e)
  }

  predicate TeacherTaken(data: Buckets, e: Record) {
    exists d, k :: d in data && 0 <= k < |data[d]| && TeacherClash(data[d][k], e)
  }

  /** `validateEntry(entry)` against the current buckets: the required-field
      check comes first, then the slot check; the teacher check can never
      fire, because a teacher clash is a slot clash. */
  function ValidateEntry(data: Buckets, e: Record): (v: Verdict)
    ensures v == Rejected(MISSING_FIELDS) <==> MissingField(e)
    ensures v == Rejected(SLOT_OCCUPIED) <==> !MissingField(e) && SlotTaken(data, e)
    ensures v == Accepted <==> !MissingField(e) && !SlotTaken(data, e)
    ensures v != Rejected(TEACHER_BUSY)
  {
    if MissingField(e) then Rejected(MISSING_FIELDS)
    else if SlotTaken(data, e) then Rejected(SLOT_OCCUPIED)
    else if TeacherTaken(data, e) then Rejected(TEACHER_BUSY)
    else Accepted
  }

  /** Adding a record that carries the id of the entry under validation, to
      any bucket, never changes the verdict on that entry. */
  lemma ValidateIgnoresSameId(data: Buckets, key: string, x: Record, e: Record)
    requires x.id == e.id
    ensures ValidateEntry(data[key := Bucket(data, key) + [x]], e) == ValidateEntry(data, e)
  {
    var data' := data[key := Bucket(data, key) + [x]];
    if SlotTaken(data', e) {
      var d, k :| d in data' && 0 <= k < |data'[d]| && SlotClash(data'[d][k], e);
      if d == key {
        assert k < |Bucket(data, key)|;
        assert d in data && data[d][k] == data'[d][k];
      } else {
        assert d in data && data[d][k] == data'[d][k];
      }
    }
    if SlotTaken(data, e) {
      var d, k :| d in data && 0 <= k < |data[d]| && SlotClash(data[d][k], e);
      assert d in data' && data'[d][k] == data[d][k];
    }
  }

  /** Re-validating an entry before an update: when every record sharing its
      day and time has its own id (the stored copy of the entry itself, for
      instance), a complete entry is accepted. */
  lemma RevalidateUnchanged(data: Buckets, e: Record)
    requires !MissingField(e)
    requires forall d, k :: d in data && 0 <= k < |data[d]| ==>
               (data[d][k].day == e.day && data[d][k].time == e.time ==> data[d][k].id == e.id)
    ensures ValidateEntry(data, e) == Accepted
  {
  }

  // ---------------------------------------------------------------------
  // Grouping the stored entry list into day buckets
  // ---------------------------------------------------------------------

  /** One step of the reduce: create the bucket if absent, then append. */
  function Push(acc: Buckets, e: Record): (r: Buckets)
    ensures r.Keys == acc.Keys + {DayKey(e.day)}
    ensures r[DayKey(e.day)] == Bucket(acc, DayKey(e.day)) + [e]
    ensures forall k :: k in acc && k != DayKey(e.day) ==> r[k] == acc[k]
  {
    acc[DayKey(e.day) := Bucket(acc, DayKey(e.day)) + [e]]
  }

  /** `entries.reduce(push into acc[entry.day], {})`. */
  function GroupByDay(es: seq<Record>): Buckets {
    if es == [] then map[] else Push(GroupByDay(es[..|es| - 1]), es[|es| - 1])
  }

  /** The entries of `es` whose day is stored under `key`, in input order. */
  function OnDay(es: seq<Record>, key: string): (r: seq<Record>)
    ensures |r| <= |es|
  {
    if es == [] then [] else Keep(es[0], key) + OnDay(es[1..], key)
  }

  function Keep(e: Record, key: string): seq<Record> {
    if DayKey(e.day) == key then [e] else []
  }

  lemma {:induction false} OnDayAppend(a: seq<Record>, b: seq<Record>, key: string)
    ensures OnDay(a + b, key) == OnDay(a, key) + OnDay(b, key)
  {
    if a == [] {
      assert a + b == b;
    } else {
      assert (a + b)[0] == a[0];
      assert (a + b)[1..] == a[1..] + b;
      OnDayAppend(a[1..], b, key);
      assert OnDay(a + b, key) == Keep(a[0], key) + (OnDay(a[1..], key) + OnDay(b, key));
    }
  }

  lemma {:induction false} OnDayMember(es: seq<Record>, key: string, x: Record)
    ensures x in OnDay(es, key) <==> x in es && DayKey(x.day) == key
  {
    if es != [] {
      OnDayMember(es[1..], key, x);
      assert es == [es[0]] + es[1..];
    }
  }

  /** Each bucket holds exactly the entries of its day, in their input
      order, and a bucket exists exactly for the days that occur. */
  lemma {:induction false} GroupByDayBuckets(es: seq<Record>, key: string)
    ensures key in GroupByDay(es) <==> OnDay(es, key) != []
    ensures Bucket(GroupByDay(es), key) == OnDay(es, key)
  {
    if es != [] {
      var init, e := es[..|es| - 1], es[|es| - 1];
      assert es == init + [e];
      GroupByDayBuckets(init, key);
      OnDayAppend(init, [e], key);
      assert OnDay([e], key) == Keep(e, key) by {
        assert [e][1..] == [];
      }
    }
  }

  /** Every entry lands in the bucket of its own day. */
  lemma EveryEntryBucketed(es: seq<Record>, i: nat)
    requires i < |es|
    ensures DayKey(es[i].day) in GroupByDay(es)
    ensures es[i] in GroupByDay(es)[DayKey(es[i].day)]
  {
    var key := DayKey(es[i].day);
    OnDayMember(es, key, es[i]);
    GroupByDayBuckets(es, key);
  }

  /** The number of records over all buckets. */
  ghost function TotalSize(m: Buckets): nat
    decreases |m|
  {
    if m == map[] then 0
    else
      var k :| k in m;
      |m[k]| + TotalSize(m - {k})
  }

  lemma {:induction false} TotalSizeRemove(m: Buckets, k: string)
    requires k in m
    ensures TotalSize(m) == |m[k]| + TotalSize(m - {k})
    decreases |m|
  {
    var j :| j in m && TotalSize(m) == |m[j]| + TotalSize(m - {j});
    if j != k {
      TotalSizeRemove(m - {j}, k);
      TotalSizeRemove(m - {k}, j);
      assert m - {j} - {k} == m - {k} - {j};
    }
  }

  lemma TotalSizePush(acc: Buckets, e: Record)
    ensures TotalSize(Push(acc, e)) == TotalSize(acc) + 1
  {
    var key, r := DayKey(e.day), Push(acc, e);
    TotalSizeRemove(r, key);
    if key in acc {
      TotalSizeRemove(acc, key);
      assert r - {key} == acc - {key};
    } else {
      assert r - {key} == acc;
    }
  }

  /** No entry is lost or duplicated: the bucket sizes add up to the input
      length. */
  lemma {:induction false} GroupByDaySize(es: seq<Record>)
    ensures TotalSize(GroupByDay(es)) == |es|
  {
    if es != [] {
      GroupByDaySize(es[..|es| - 1]);
      TotalSizePush(GroupByDay(es[..|es| - 1]), es[|es| - 1]);
    }
  }

  // ---------------------------------------------------------------------
  // deleteEntry
  // ---------------------------------------------------------------------

  /** `dayEntries.filter(entry => entry.id !== id)`. */
  function WithoutId(s: seq<Record>, id: RecordId): (r: seq<Record>)
    ensures |r| <= |s|
    ensures forall x :: x in r <==> x in s && x.id != id
  {
    if s == [] then []
    else (if s[0].id != id then [s[0]] else []) + WithoutId(s[1..], id)
  }

  /** Filtering keeps the relative order of what it keeps. */
  lemma {:induction false} WithoutIdAppend(a: seq<Record>, b: seq<Record>, id: RecordId)
    ensures WithoutId(a + b, id) == WithoutId(a, id) + WithoutId(b, id)
  {
    if a == [] {
      assert a + b == b;
    } else {
      assert (a + b)[1..] == a[1..] + b;
      WithoutIdAppend(a[1..], b, id);
    }
  }

  /** Nothing changes in a bucket without a record of that id. */
  lemma {:induction false} WithoutIdAbsent(s: seq<Record>, id: RecordId)
    requires forall i :: 0 <= i < |s| ==> s[i].id != id
    ensures WithoutId(s, id) == s
  {
    if s != [] {
      WithoutIdAbsent(s[1..], id);
    }
  }

  /** `deleteEntry(id)`: the same days, each bucket filtered. */
  function WithoutEntry(data: Buckets, id: RecordId): (r: Buckets)
    ensures r.Keys == data.Keys
    ensures forall d, x :: d in r ==> (x in r[d] <==> x in data[d] && x.id != id)
  {
    map d | d in data :: WithoutId(data[d], id)
  }

  /** Deleting twice is deleting once. */
  lemma DeleteIdempotent(data: Buckets, id: RecordId)
    ensures WithoutEntry(WithoutEntry(data, id), id) == WithoutEntry(data, id)
  {
    var once := WithoutEntry(data, id);
    forall d | d in once
      ensures WithoutId(once[d], id) == once[d]
    {
      WithoutIdAbsent(once[d], id);
    }
  }

  /** Deleting an id no bucket holds changes nothing. */
  lemma DeleteAbsent(data: Buckets, id: RecordId)
    requires forall d, k :: d in data && 0 <= k < |data[d]| ==> data[d][k].id != id
    ensures WithoutEntry(data, id) == data
  {
    forall d | d in data
      ensures WithoutId(data[d], id) == data[d]
    {
      WithoutIdAbsent(data[d], id);
    }
  }

  // ---------------------------------------------------------------------
  // formatTime12Hour
  // ---------------------------------------------------------------------

  /** `s.split(':')`. */
  function Split(s: string): (r: seq<string>)
    ensures |r| >= 1
    ensures forall i :: 0 <= i < |r| ==> ':' !in r[i]
  {
    if s == [] then [""]
    else
      var rest := Split(s[1..]);
      if s[0] == ':' then [""] + rest
      else
        assert ':' !in rest[0];
        [[s[0]] + rest[0]] + rest[1..]
  }

  /** `pieces.join(':')`. */
  function Join(pieces: seq<string>): string
    requires |pieces| >= 1
  {
    if |pieces| == 1 then pieces[0] else pieces[0] + ":" + Join(pieces[1..])
  }

  /** Splitting loses nothing: joining the pieces restores the text. */
  lemma {:induction false} JoinSplit(s: string)
    ensures Join(Split(s)) == s
  {
    if s != [] {
      var rest := Split(s[1..]);
      JoinSplit(s[1..]);
      if s[0] == ':' {
        assert Split(s)[1..] == rest;
      } else {
        var r := Split(s);
        assert r[1..] == rest[1..];
        if |rest| == 1 {
          assert Join(r) == [s[0]] + rest[0];
        } else {
          assert Join(rest) == rest[0] + ":" + Join(rest[1..]);
        }
      }
    }
  }

  /** Text with no colon splits into itself. */
  lemma {:induction false} SplitNoColon(s: string)
    requires ':' !in s
    ensures Split(s) == [s]
  {
    if s != [] {
      assert s[0] != ':' && ':' !in s[1..];
      SplitNoColon(s[1..]);
      assert [s[0]] + s[1..] == s;
    }
  }

  /** The first colon ends the first piece. */
  lemma {:induction false} SplitAtColon(a: string, t: string)
    requires ':' !in a
    ensures Split(a + ":" + t) == [a] + Split(t)
  {
    if a == [] {
      assert a + ":" + t == [':'] + t;
      assert ([':'] + t)[1..] == t;
    } else {
      var s := a + ":" + t;
      assert s[0] == a[0] && a[0] != ':';
      assert s[1..] == a[1..] + ":" + t;
      SplitAtColon(a[1..], t);
      var rest := Split(s[1..]);
      assert rest == [a[1..]] + Split(t);
      assert Split(s) == [[a[0]] + rest[0]] + rest[1..];
      assert [a[0]] + a[1..] == a;
    }
  }

  /** Joining colon-free pieces and splitting again gives them back. */
  lemma {:induction false} SplitJoin(pieces: seq<string>)
    requires |pieces| >= 1
    requires forall i :: 0 <= i < |pieces| ==> ':' !in pieces[i]
    ensures Split(Join(pieces)) == pieces
  {
    if |pieces| == 1 {
      SplitNoColon(pieces[0]);
    } else {
      SplitJoin(pieces[1..]);
      SplitAtColon(pieces[0], Join(pieces[1..]));
    }
  }

  /** `h >= 12 ? 'PM' : 'AM'`; a `NaN` hour compares false. */
  function Suffix(h: Option<int>): (r: string)
    ensures r == "PM" <==> h.Some? && h.value >= 12
    ensures r == "PM" || r == "AM"
  {
    if h.Some? && h.value >= 12 then "PM" else "AM"
  }

  /** `h % 12 || 12`: a zero remainder and `NaN` are both falsy. */
  function DisplayHour(h: Option<int>): (r: int)
    ensures h.None? ==> r == 12
    ensures h.Some? && h.value >= 0 ==> 1 <= r <= 12 && r % 12 == h.value % 12
    ensures h.Some? && h.value < 0 ==> (r == 12 <==> (-h.value) % 12 == 0)
    ensures h.Some? && h.value < 0 && r != 12 ==> -12 < r < 0 && -r == (-h.value) % 12
  {
    if h.None? then 12
    else
      var m := TruncRem(h.value, 12);
      if m == 0 then 12 else m
  }

  /** `formatTime12Hour(time24)`. */
  function FormatTime12Hour(time24: Option<string>): (r: string)
    ensures r == "" <==> Falsy(time24)
  {
    if Falsy(time24) then ""
    else
      var pieces := Split(time24.value);
      var h := ParseInt(pieces[0]);
      var minutes := if |pieces| >= 2 then Some(pieces[1]) else None;
      IntToString(DisplayHour(h)) + ":" + Show(minutes) + " " + Suffix(h)
  }

  /** For `hours:minutes` the hour is parsed and converted, the suffix
      follows the parsed hour, and the minutes are copied as they are. */
  lemma FormatClock(hours: string, minutes: string)
    requires ':' !in hours && ':' !in minutes
    ensures FormatTime12Hour(Some(hours + ":" + minutes)) ==
      IntToString(DisplayHour(ParseInt(hours))) + ":" + minutes + " " + Suffix(ParseInt(hours))
  {
    SplitNoColon(minutes);
    SplitAtColon(hours, minutes);
  }

  /** A time without a colon has no minutes piece: they render as
      "undefined". */
  lemma FormatNoColon(time24: string)
    requires time24 != [] && ':' !in time24
    ensures FormatTime12Hour(Some(time24)) ==
      IntToString(DisplayHour(ParseInt(time24))) + ":" + "undefined" + " " + Suffix(ParseInt(time24))
  {
    SplitNoColon(time24);
  }

  /** On the hours of a 24-hour clock: midnight's hour is 12 AM, noon's is
      12 PM, and afternoon hours drop by twelve. */
  lemma Clock24(h: int)
    requires 0 <= h < 24
    ensures DisplayHour(Some(h)) == if h == 0 then 12 else if h > 12 then h - 12 else h
    ensures Suffix(Some(h)) == if h < 12 then "AM" else "PM"
  {
  }

  /** `parseInt` of two decimal digits. */
  lemma ParseTwoDigits(a: char, b: char)
    requires '0' <= a <= '9' && '0' <= b <= '9'
    ensures ParseInt([a, b]) == Some(10 * (a as int - '0' as int) + (b as int - '0' as int))
  {
    var s := [a, b];
    assert IsDigit(a, 10) && IsDigit(b, 10);
    assert TrimStart(s) == s by {
      assert !IsSpace(a);
    }
    assert Unsigned(s) == s && !HexPrefix(s) && Sign(s) == 1;
    AllDigitsRun(s, 10);
    assert s[..1] == [a] && [a][..0] == [];
    assert DigitsValue([a], 10) == DigitAt(a, 10);
    assert DigitsValue(s, 10) == DigitsValue([a], 10) * 10 + DigitAt(b, 10);
  }

  /** A time written `HH:MM` with two decimal digits for the hour. */
  lemma TwoDigitClock(a: char, b: char, minutes: string)
    requires '0' <= a <= '9' && '0' <= b <= '9' && ':' !in minutes
    ensures var h := Some(10 * (a as int - '0' as int) + (b as int - '0' as int));
      FormatTime12Hour(Some([a, b] + ":" + minutes)) ==
        IntToString(DisplayHour(h)) + ":" + minutes + " " + Suffix(h)
  {
    ParseTwoDigits(a, b);
    FormatClock([a, b], minutes);
  }

  /** The texts the examples below are made of. */
  lemma ExampleTexts()
    ensures "00:15" == ['0', '0'] + ":" + "15" && "12:15 AM" == "12" + ":" + "15" + " " + "AM"
    ensures "12:00" == ['1', '2'] + ":" + "00" && "12:00 PM" == "12" + ":" + "00" + " " + "PM"
    ensures "13:30" == ['1', '3'] + ":" + "30" && "1:30 PM" == "1" + ":" + "30" + " " + "PM"
    ensures IntToString(12) == "12" && IntToString(1) == "1"
  {
    assert NatToString(1) == "1";
  }

  /** `"00:15"` is a quarter past midnight: "12:15 AM". */
  lemma FormatMidnight()
    ensures FormatTime12Hour(Some("00:15")) == "12:15 AM"
  {
    Clock24(0);
    ExampleTexts();
    TwoDigitClock('0', '0', "15");
  }

  /** `"12:00"` is noon: "12:00 PM". */
  lemma FormatNoon()
    ensures FormatTime12Hour(Some("12:00")) == "12:00 PM"
  {
    Clock24(12);
    ExampleTexts();
    TwoDigitClock('1', '2', "00");
  }

  /** `"13:30"` is half past one in the afternoon: "1:30 PM". */
  lemma FormatAfternoon()
    ensures FormatTime12Hour(Some("13:30")) == "1:30 PM"
  {
    Clock24(13);
    ExampleTexts();
    TwoDigitClock('1', '3', "30");
  }

  // ---------------------------------------------------------------------
  // The provider's state
  // ---------------------------------------------------------------------

  /** `data.entries || []`. */
  function StoredEntries(entries: Option<seq<Record>>): seq<Record> {
    if entries.Some? then entries.value else []
  }

  /** `data.isFinalized || false` for a stored boolean that may be absent. */
  function StoredFlag(flag: Option<bool>): (r: bool)
    ensures flag.None? ==> !r
    ensures flag.Some? ==> r == flag.value
  {
    flag == Some(true)
  }

  /** The stored `timetable/current` document; each field may be absent. */
  datatype StoredDoc = StoredDoc(entries: Option<seq<Record>>, isFinalized: Option<bool>, isApproved: Option<bool>)

  /** The buckets the snapshot listener derives from the stored document. */
  function DocBuckets(doc: Option<StoredDoc>): Buckets {
    if doc.Some? then GroupByDay(StoredEntries(doc.value.entries)) else map[]
  }

  /** The finalized flag the snapshot listener derives from the stored document. */
  function DocFinalized(doc: Option<StoredDoc>): bool {
    doc.Some? && StoredFlag(doc.value.isFinalized)
  }

  /** The approved flag the snapshot listener derives from the stored document. */
  function DocApproved(doc: Option<StoredDoc>): bool {
    doc.Some? && StoredFlag(doc.value.isApproved)
  }

  /** The document `setFinalized(value)` writes: the stored one, or
      `{ entries: [], isApproved: false }` when there is none, with
      `isFinalized` replaced. Entries and approval read back unchanged. */
  function WithFinalized(doc: Option<StoredDoc>, value: bool): (d: StoredDoc)
    ensures DocFinalized(Some(d)) == value
    ensures DocApproved(Some(d)) == DocApproved(doc)
    ensures DocBuckets(Some(d)) == DocBuckets(doc)
  {
    var current := if doc.Some? then doc.value else StoredDoc(Some([]), None, Some(false));
    current.(isFinalized := Some(value))
  }

  /** The document `setApproved(value)` writes: the stored one, or
      `{ entries: [], isFinalized: false }` when there is none, with
      `isApproved` replaced. Entries and finality read back unchanged. */
  function WithApproved(doc: Option<StoredDoc>, value: bool): (d: StoredDoc)
    ensures DocApproved(Some(d)) == value
    ensures DocFinalized(Some(d)) == DocFinalized(doc)
    ensures DocBuckets(Some(d)) == DocBuckets(doc)
  {
    var current := if doc.Some? then doc.value else StoredDoc(Some([]), Some(false), None);
    current.(isApproved := Some(value))
  }

  /** The provider's timetable state: the stored document, and the local day
      buckets and workflow flags. `addEntry` and `deleteEntry` change only the
      local buckets; the flag setters write the stored document, after which
      the snapshot listener replaces the buckets and the flags by what the
      document holds, so local edits are dropped. Each write is followed at
      once by the listener's run. */
  class TimetableState {
    var stored: Option<StoredDoc>
    var data: Buckets
    var finalized: bool
    var approved: bool

    /** The workflow promise: only a finalized timetable is approved. */
    predicate Consistent()
      reads this
    {
      approved ==> finalized
    }

    /** The local flags are those of the stored document. */
    predicate Synced()
      reads this
    {
      finalized == DocFinalized(stored) && approved == DocApproved(stored)
    }

    /** `useState({})`, `useState(false)`, `useState(false)`, with `doc`
        already in the store. */
    constructor (doc: Option<StoredDoc>)
      ensures stored == doc && data == map[] && !finalized && !approved
      ensures Consistent()
    {
      stored := doc;
      data := map[];
      finalized := false;
      approved := false;
    }

    /** The snapshot listener on the stored timetable document. */
    method ApplySnapshot()
      modifies this
      ensures stored == old(stored)
      ensures data == DocBuckets(stored)
      ensures Synced()
    {
      if stored.Some? {
        data := GroupByDay(StoredEntries(stored.value.entries));
        finalized := StoredFlag(stored.value.isFinalized);
        approved := StoredFlag(stored.value.isApproved);
      } else {
        data := map[];
        finalized := false;
        approved := false;
      }
    }

    /** `addEntry(entry)`: validate, then append a copy stamped with the
      clock reading `now` to the local bucket of its day. */
    method AddEntry(entry: Record, now: int) returns (added: bool)
      modifies this
      ensures added <==> ValidateEntry(old(data), entry) == Accepted
      ensures data == if added then Push(old(data), entry.(id := Num(now))) else old(data)
      ensures stored == old(stored) && finalized == old(finalized) && approved == old(approved)
    {
      added := ValidateEntry(data, entry) == Accepted;
      if added {
        data := Push(data, entry.(id := Num(now)));
      }
    }

    /** `deleteEntry(id)`, on the local buckets only. */
    method DeleteEntry(id: RecordId)
      modifies this
      ensures data == WithoutEntry(old(data), id)
      ensures stored == old(stored) && finalized == old(finalized) && approved == old(approved)
    {
      data := WithoutEntry(data, id);
    }

    /** `saveTimetable(entries)`: the document is overwritten by one that
      holds only the entries, so both flags read back false. */
    method SaveTimetable(entries: seq<Record>)
      modifies this
      ensures stored == Some(StoredDoc(Some(entries), None, None))
      ensures data == GroupByDay(entries) && !finalized && !approved
      ensures Synced() && Consistent()
    {
      stored := Some(StoredDoc(Some(entries), None, None));
      ApplySnapshot();
    }

    /** `setFinalized(value)`: the document keeps its entries and approval;
      the listener then reloads the buckets from the document. */
    method SetFinalized(value: bool)
      modifies this
      ensures stored == Some(WithFinalized(old(stored), value))
      ensures finalized == value
      ensures data == DocBuckets(old(stored))
      ensures approved == DocApproved(old(stored))
      ensures Synced()
    {
      stored := Some(WithFinalized(stored, value));
      ApplySnapshot();
    }

    /** `setApproved(value)`: the document keeps its entries and finality;
      the listener then reloads the buckets from the document. */
    method SetApproved(value: bool)
      modifies this
      ensures stored == Some(WithApproved(old(stored), value))
      ensures approved == value
      ensures data == DocBuckets(old(stored))
      ensures finalized == DocFinalized(old(stored))
      ensures Synced()
    {
      stored := Some(WithApproved(stored, value));
      ApplySnapshot();
    }

    /** `finalizeTimetable()`: approval is left as it is. */
    method FinalizeTimetable()
      modifies this
      ensures stored == Some(WithFinalized(old(stored), true))
      ensures finalized && data == DocBuckets(old(stored))
      ensures old(Synced()) ==> approved == old(approved)
      ensures Synced() && Consistent()
    {
      SetFinalized(true);
    }

    /** `approveTimetable()`: approve only when the local flag says the
      timetable is finalized; otherwise only a warning is raised and
      nothing changes. */
    method ApproveTimetable() returns (approvedNow: bool)
      modifies this
      ensures approvedNow == old(finalized)
      ensures old(finalized) ==>
        stored == Some(WithApproved(old(stored), true)) && approved && data == DocBuckets(old(stored))
      ensures old(finalized) && old(Synced()) ==> finalized
      ensures old(finalized) ==> Synced() && finalized == DocFinalized(old(stored))
      ensures !old(finalized) ==>
        stored == old(stored) && data == old(data) && !finalized && approved == old(approved)
      ensures old(Synced()) ==> Synced()
      ensures old(Synced()) && old(Consistent()) ==> Consistent()
    {
      approvedNow := finalized;
      if finalized {
        SetApproved(true);
      }
    }

    /** `unfinalizeTimetable()`: clear finality, and approval if the local
      flag says it was set. */
    method UnfinalizeTimetable()
      modifies this
      ensures old(approved) ==> stored == Some(WithApproved(Some(WithFinalized(old(stored), false)), false))
      ensures !old(approved) ==> stored == Some(WithFinalized(old(stored), false))
      ensures !finalized && data == DocBuckets(old(stored))
      ensures old(Synced()) ==> !approved
      ensures Synced()
      ensures old(Synced()) ==> Consistent()
    {
      var wasApproved := approved;
      SetFinalized(false);
      if wasApproved {
        SetApproved(false);
      }
    }

    /** `unapproveTimetable()`. */
    method UnapproveTimetable()
      modifies this
      ensures stored == Some(WithApproved(old(stored), false))
      ensures !approved && data == DocBuckets(old(stored))
      ensures old(Synced()) ==> finalized == old(finalized)
      ensures Synced() && Consistent()
    {
      SetApproved(false);
    }
  }
}
