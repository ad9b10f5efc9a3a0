/** The operations that change the reading list: storing a reading into its
    (date, AM/PM) slot, deleting by id, importing a file, and restoring the
    list saved by the previous session.

    The page asks before it replaces a reading already in the slot and
    stores nothing when systolic or diastolic is 0 or NaN; the logger
    replaces without asking and stores whatever parseInt gave. Both then put
    the new reading first and sort the list: date descending, PM before AM.
    A `confirm` dialog is the boolean the user answered. */
module Store {
  import opened JsStrings
  import opened JsNumbers
  import opened Records
  import opened Codec

  // ---------------------------------------------------------------------
  // Storing a reading into its slot

  /** `findIndex` of the first reading in the slot, -1 when there is none. */
  function FindSlot(data: seq<Reading>, date: string, time: Slot): (i: int)
    ensures -1 <= i < |data|
    ensures i >= 0 <==> SlotTaken(data, date, time)
    ensures i >= 0 ==> InSlot(data[i], date, time)
    ensures forall j :: 0 <= j < |data| && (i < 0 || j < i) ==> !InSlot(data[j], date, time)
  {
    if |data| == 0 then -1
    else if InSlot(data[0], date, time) then 0
    else
      var i := FindSlot(data[1..], date, time);
      assert forall j :: 0 < j < |data| ==> data[j] == data[1..][j - 1];
      if i < 0 then -1 else i + 1
  }

  /** `splice(i, 1)`. */
  function RemoveAt(data: seq<Reading>, i: nat): (r: seq<Reading>)
    requires i < |data|
    ensures |r| == |data| - 1
    ensures multiset(r) == multiset(data) - multiset{data[i]}
  {
    MultisetWithout(data, i);
    data[..i] + data[i + 1..]
  }

  /** The list after storing `x`: a reading already in x's slot is removed
      first when `replace` allows it, and the list is left as it was when it
      does not; then `x` joins the list and the list is sorted. The result
      holds the readings it held before, less the one replaced, plus `x`. */
  function Upsert(data: seq<Reading>, x: Reading, replace: bool): (r: seq<Reading>)
    ensures SlotTaken(data, x.date, x.time) && !replace ==> r == data
    ensures !SlotTaken(data, x.date, x.time) ==>
      Sorted(r) && multiset(r) == multiset(data) + multiset{x}
    ensures SlotTaken(data, x.date, x.time) && replace ==>
      Sorted(r) &&
      multiset(r) == multiset(data) - multiset{data[FindSlot(data, x.date, x.time)]} + multiset{x}
    ensures |r| == |data| + (if SlotTaken(data, x.date, x.time) then 0 else 1)
  {
    var i := FindSlot(data, x.date, x.time);
    if i < 0 then Sort([x] + data)
    else if !replace then data
    else Sort([x] + RemoveAt(data, i))
  }

  /** Every reading of an upserted list is the new reading or one that was
      in the list before. */
  lemma UpsertDrawsFrom(data: seq<Reading>, x: Reading, replace: bool)
    ensures var r := Upsert(data, x, replace);
      forall k :: 0 <= k < |r| ==> r[k] == x || r[k] in data
  {
    var r := Upsert(data, x, replace);
    forall k | 0 <= k < |r| ensures r[k] == x || r[k] in data {
      assert r[k] in multiset(r);
    }
  }

  /** The readings left after the first reading of x's slot is removed from
      a slot-unique list leave x's slot free and stay slot-unique. */
  lemma RemovalFreesSlot(data: seq<Reading>, x: Reading)
    requires SlotUnique(data) && SlotTaken(data, x.date, x.time)
    ensures var rest := RemoveAt(data, FindSlot(data, x.date, x.time));
      SlotUnique(rest) && !SlotTaken(rest, x.date, x.time)
  {
    var i := FindSlot(data, x.date, x.time);
    UniqueWithout(data, i);
    FreshSlotAfterRemoval(data, i, RemoveAt(data, i));
  }

  /** Storing a reading keeps a slot-unique list slot-unique. */
  lemma UpsertKeepsSlotsUnique(data: seq<Reading>, x: Reading, replace: bool)
    requires SlotUnique(data)
    ensures SlotUnique(Upsert(data, x, replace))
  {
    var i := FindSlot(data, x.date, x.time);
    if i < 0 {
      UniqueCons(x, data);
      SortKeepsSlotsUnique([x] + data);
    } else if replace {
      var rest := RemoveAt(data, i);
      RemovalFreesSlot(data, x);
      UniqueCons(x, rest);
      SortKeepsSlotsUnique([x] + rest);
    }
  }

  /** Unless the replacement was declined, the new reading is in the list
      exactly once and is the only reading in its slot. */
  lemma UpsertPlacesReading(data: seq<Reading>, x: Reading, replace: bool)
    requires SlotUnique(data)
    requires replace || !SlotTaken(data, x.date, x.time)
    ensures var r := Upsert(data, x, replace);
      && multiset(r)[x] == 1
      && forall k :: 0 <= k < |r| && InSlot(r[k], x.date, x.time) ==> r[k] == x
  {
    var r := Upsert(data, x, replace);
    var i := FindSlot(data, x.date, x.time);
    var rest := if i < 0 then data else RemoveAt(data, i);
    assert !SlotTaken(rest, x.date, x.time) by {
      if i >= 0 { RemovalFreesSlot(data, x); }
    }
    assert multiset(r) == multiset(rest) + multiset{x};
    AddedReadingIsAlone(r, rest, x);
  }

  /** A reading added to a list in which its slot is free occurs once and
      is alone in its slot. */
  lemma AddedReadingIsAlone(r: seq<Reading>, rest: seq<Reading>, x: Reading)
    requires multiset(r) == multiset(rest) + multiset{x}
    requires !SlotTaken(rest, x.date, x.time)
    ensures multiset(r)[x] == 1
    ensures forall k :: 0 <= k < |r| && InSlot(r[k], x.date, x.time) ==> r[k] == x
  {
    FreeSlotHasNoMember(rest, x.date, x.time);
    assert multiset(rest)[x] == 0;
    forall k | 0 <= k < |r| ensures r[k] == x || r[k] in rest {
      assert r[k] in multiset(r);
    }
  }

  lemma FreeSlotHasNoMember(rest: seq<Reading>, date: string, time: Slot)
    requires !SlotTaken(rest, date, time)
    ensures forall y :: y in rest ==> !InSlot(y, date, time)
  {
  }

  /** A list in which every time is AM or PM. */
  predicate DayHalves(data: seq<Reading>) {
    forall k :: 0 <= k < |data| ==> !data[k].time.Other?
  }

  /** The source sorts with a comparator that is not a total order on ties;
      on a slot-unique list of AM/PM readings there are no ties, so every
      sorted arrangement of the readings the upsert keeps is the modelled
      result. */
  lemma UpsertMatchesAnySort(data: seq<Reading>, x: Reading, replace: bool, sorted: seq<Reading>)
    requires SlotUnique(data) && DayHalves(data) && !x.time.Other?
    requires replace || !SlotTaken(data, x.date, x.time)
    requires Sorted(sorted)
    requires multiset(sorted) == multiset(Upsert(data, x, replace))
    ensures sorted == Upsert(data, x, replace)
  {
    var r := Upsert(data, x, replace);
    UpsertKeepsSlotsUnique(data, x, replace);
    UpsertDrawsFrom(data, x, replace);
    UniqueSlotsHaveDistinctKeys(r);
    SortedPermutationUnique(r, sorted);
  }

  /** Storing the same reading twice is storing it once. */
  lemma UpsertIdempotent(data: seq<Reading>, x: Reading)
    requires SlotUnique(data) && DayHalves(data) && !x.time.Other?
    ensures Upsert(Upsert(data, x, true), x, true) == Upsert(data, x, true)
  {
    var r := Upsert(data, x, true);
    UpsertKeepsSlotsUnique(data, x, true);
    UpsertKeepsDayHalves(data, x, true);
    UpsertHoldsReading(data, x);
    ReplacingWithItselfKeepsReadings(r, x);
    UniqueSlotsHaveDistinctKeys(r);
    SortedPermutationUnique(r, Upsert(r, x, true));
  }

  /** After an upsert with replacement, the first reading of x's slot is x. */
  lemma UpsertHoldsReading(data: seq<Reading>, x: Reading)
    requires SlotUnique(data)
    ensures var r := Upsert(data, x, true);
      SlotTaken(r, x.date, x.time) && r[FindSlot(r, x.date, x.time)] == x
  {
    var r := Upsert(data, x, true);
    UpsertPlacesReading(data, x, true);
    assert x in multiset(r);
    var k := PositionOf(r, x);
    assert InSlot(r[k], x.date, x.time);
  }

  /** Replacing the first reading of a slot by itself keeps the readings. */
  lemma ReplacingWithItselfKeepsReadings(r: seq<Reading>, x: Reading)
    requires SlotTaken(r, x.date, x.time) && r[FindSlot(r, x.date, x.time)] == x
    ensures Sorted(Upsert(r, x, true)) && multiset(Upsert(r, x, true)) == multiset(r)
  {
  }

  /** Storing an AM or PM reading keeps a list of AM/PM readings one. */
  lemma UpsertKeepsDayHalves(data: seq<Reading>, x: Reading, replace: bool)
    requires DayHalves(data) && !x.time.Other?
    ensures DayHalves(Upsert(data, x, replace))
  {
    var r := Upsert(data, x, replace);
    UpsertDrawsFrom(data, x, replace);
    forall k | 0 <= k < |r| ensures !r[k].time.Other? {
      if r[k] != x {
        var j :| 0 <= j < |data| && data[j] == r[k];
      }
    }
  }

  // ---------------------------------------------------------------------
  // The page's Save button

  /** `hr || null`: a heart rate of 0 or NaN is stored as null. */
  function PageRate(hr: Num): (h: Option<Num>)
    ensures h.None? <==> !Truthy(hr)
    ensures StoredRate(h) == h
  {
    if Truthy(hr) then Some(hr) else None
  }

  /** The reading the page builds from its input boxes, the selected date,
      the selected AM/PM and the clock: nothing when systolic or diastolic
      parses to 0 or NaN. */
  function PageEntry(sysText: string, diaText: string, hrText: string,
                     date: string, time: Slot, now: int): (e: Option<Reading>)
    ensures e.None? <==> !Truthy(ParseInt(sysText)) || !Truthy(ParseInt(diaText))
  {
    var sys, dia := ParseInt(sysText), ParseInt(diaText);
    if !Truthy(sys) || !Truthy(dia) then None
    else Some(Reading(Int(now), date, time, sys, dia, PageRate(ParseInt(hrText))))
  }

  /** saveReading: the list is unchanged when systolic or diastolic is 0 or
      NaN, and when the slot is taken and the user declines to replace it. */
  function SaveReading(data: seq<Reading>, sysText: string, diaText: string, hrText: string,
                       date: string, time: Slot, now: int, confirmed: bool): (r: seq<Reading>)
    ensures !Truthy(ParseInt(sysText)) || !Truthy(ParseInt(diaText)) ==> r == data
    ensures SlotTaken(data, date, time) && !confirmed ==> r == data
    ensures Truthy(ParseInt(sysText)) && Truthy(ParseInt(diaText)) &&
            (confirmed || !SlotTaken(data, date, time)) ==>
      && Sorted(r)
      && Reading(Int(now), date, time, ParseInt(sysText), ParseInt(diaText),
                 PageRate(ParseInt(hrText))) in multiset(r)
      && |r| == |data| + (if SlotTaken(data, date, time) then 0 else 1)
  {
    match PageEntry(sysText, diaText, hrText, date, time, now)
    case None => data
    case Some(x) => Upsert(data, x, confirmed)
  }

  /** A reading the page keeps across a reload: plain texts, a nonzero
      integer id and a heart rate that is null or nonzero. */
  predicate Stable(r: Reading) {
    Plain(r) && Truthy(r.id) && StoredRate(r.heartRate) == r.heartRate
  }

  predicate AllStable(data: seq<Reading>) {
    forall k :: 0 <= k < |data| ==> Stable(data[k])
  }

  /** What the page builds is stable when the clock is nonzero and the date
      is plain text. */
  lemma PageEntryIsStable(sysText: string, diaText: string, hrText: string,
                          date: string, time: Slot, now: int)
    requires now != 0 && ',' !in date && '\n' !in date && !time.Other?
    ensures var e := PageEntry(sysText, diaText, hrText, date, time, now);
      e.Some? ==> Stable(e.value) && Truthy(e.value.systolic) && Truthy(e.value.diastolic)
  {
  }

  /** Saving on the page keeps the list reloadable. */
  lemma SaveKeepsStable(data: seq<Reading>, sysText: string, diaText: string, hrText: string,
                        date: string, time: Slot, now: int, confirmed: bool)
    requires AllStable(data)
    requires now != 0 && ',' !in date && '\n' !in date && !time.Other?
    ensures AllStable(SaveReading(data, sysText, diaText, hrText, date, time, now, confirmed))
  {
    var e := PageEntry(sysText, diaText, hrText, date, time, now);
    if e.Some? {
      PageEntryIsStable(sysText, diaText, hrText, date, time, now);
      var r := Upsert(data, e.value, confirmed);
      UpsertDrawsFrom(data, e.value, confirmed);
      forall k | 0 <= k < |r| ensures Stable(r[k]) {
        if r[k] != e.value {
          var j :| 0 <= j < |data| && data[j] == r[k];
        }
      }
    }
  }

  /** Saving on the page keeps the list slot-unique. */
  lemma SaveKeepsSlotsUnique(data: seq<Reading>, sysText: string, diaText: string, hrText: string,
                             date: string, time: Slot, now: int, confirmed: bool)
    requires SlotUnique(data)
    ensures SlotUnique(SaveReading(data, sysText, diaText, hrText, date, time, now, confirmed))
  {
    var e := PageEntry(sysText, diaText, hrText, date, time, now);
    if e.Some? {
      UpsertKeepsSlotsUnique(data, e.value, confirmed);
    }
  }

  // ---------------------------------------------------------------------
  // The logger's add command

  /** `hr ? parseInt(hr) : null`: an absent or empty argument is null, any
      other text is kept as parsed, 0 and NaN included. */
  function LoggerRate(hrText: Option<string>): (h: Option<Num>)
    ensures h.None? <==> hrText.None? || hrText.value == ""
  {
    if hrText.Some? && hrText.value != "" then Some(ParseInt(hrText.value)) else None
  }

  /** `time || 'AM'`. */
  function LoggerSlot(timeText: string): (t: Slot)
    ensures timeText == "" ==> t == AM
    ensures timeText != "" ==> SlotText(t) == timeText
  {
    SlotOf(if timeText == "" then "AM" else timeText)
  }

  /** The reading addReading builds; systolic and diastolic are stored as
      parsed, without any check. */
  function LoggerEntry(sysText: string, diaText: string, hrText: Option<string>,
                       timeText: string, date: string, now: int): (r: Reading)
    ensures r.id == Int(now) && r.date == date
    ensures timeText == "" ==> r.time == AM
    ensures timeText != "" ==> SlotText(r.time) == timeText
    ensures r.systolic == ParseInt(sysText) && r.diastolic == ParseInt(diaText)
    ensures r.heartRate.None? <==> hrText.None? || hrText.value == ""
  {
    Reading(Int(now), date, LoggerSlot(timeText), ParseInt(sysText), ParseInt(diaText),
            LoggerRate(hrText))
  }

  /** addReading on the loaded list: a reading already in the slot is
      always replaced, so the new reading always ends up in the list. */
  function AddReading(data: seq<Reading>, sysText: string, diaText: string, hrText: Option<string>,
                      timeText: string, date: string, now: int): (r: seq<Reading>)
    ensures Sorted(r)
    ensures LoggerEntry(sysText, diaText, hrText, timeText, date, now) in multiset(r)
  {
    Upsert(data, LoggerEntry(sysText, diaText, hrText, timeText, date, now), true)
  }

  /** Adding in the logger keeps the list slot-unique. */
  lemma AddKeepsSlotsUnique(data: seq<Reading>, sysText: string, diaText: string,
                            hrText: Option<string>, timeText: string, date: string, now: int)
    requires SlotUnique(data)
    ensures SlotUnique(AddReading(data, sysText, diaText, hrText, timeText, date, now))
  {
    UpsertKeepsSlotsUnique(data, LoggerEntry(sysText, diaText, hrText, timeText, date, now), true);
  }

  /** Adding an AM or PM reading keeps a list of AM/PM readings one. */
  lemma AddKeepsDayHalves(data: seq<Reading>, sysText: string, diaText: string,
                          hrText: Option<string>, timeText: string, date: string, now: int)
    requires DayHalves(data) && (timeText == "AM" || timeText == "PM")
    ensures DayHalves(AddReading(data, sysText, diaText, hrText, timeText, date, now))
  {
    var x := LoggerEntry(sysText, diaText, hrText, timeText, date, now);
    assert !x.time.Other?;
    UpsertKeepsDayHalves(data, x, true);
  }

  /** Where the inputs leave no room for their differences (systolic and
      diastolic nonzero, the heart rate absent or nonzero, an AM/PM time,
      the user confirming), saving on the page and adding in the logger
      give the same list. */
  lemma SaveAndAddAgree(data: seq<Reading>, sysText: string, diaText: string, hrText: string,
                        date: string, time: Slot, now: int)
    requires Truthy(ParseInt(sysText)) && Truthy(ParseInt(diaText))
    requires hrText == "" || Truthy(ParseInt(hrText))
    requires !time.Other?
    ensures SaveReading(data, sysText, diaText, hrText, date, time, now, true)
         == AddReading(data, sysText, diaText, Some(hrText), SlotText(time), date, now)
  {
    var x := PageEntry(sysText, diaText, hrText, date, time, now).value;
    var y := LoggerEntry(sysText, diaText, Some(hrText), SlotText(time), date, now);
    assert LoggerSlot(SlotText(time)) == time;
    assert PageRate(ParseInt(hrText)) == LoggerRate(Some(hrText)) by {
      if hrText == "" { EmptyTextIsNaN(); }
    }
    assert x == y;
  }

  lemma EmptyTextIsNaN()
    ensures ParseInt("") == NaN
  {
    assert DigitPrefix("") == "";
  }

  /** A heart-rate argument that parses to 0 is stored as null by the page
      and as 0 by the logger. */
  lemma ZeroRateArgumentDiverges(sysText: string, diaText: string, hrText: string,
                                 date: string, time: Slot, now: int)
    requires Truthy(ParseInt(sysText)) && Truthy(ParseInt(diaText))
    requires hrText != "" && ParseInt(hrText) == Int(0)
    ensures PageEntry(sysText, diaText, hrText, date, time, now).value.heartRate == None
    ensures LoggerEntry(sysText, diaText, Some(hrText), SlotText(time), date, now).heartRate
         == Some(Int(0))
  {
  }

  // ---------------------------------------------------------------------
  // Deleting

  /** JavaScript `a === b` on numbers: NaN equals nothing, itself included. */
  predicate SameNumber(a: Num, b: Num) {
    a.Int? && b.Int? && a.n == b.n
  }

  /** `data.filter(r => r.id !== id)`. */
  function Without(data: seq<Reading>, id: Num): (r: seq<Reading>)
    ensures |r| <= |data|
    ensures forall y :: y in r <==> y in data && !SameNumber(y.id, id)
  {
    if |data| == 0 then []
    else
      var rest := Without(data[1..], id);
      assert data == [data[0]] + data[1..];
      if SameNumber(data[0].id, id) then rest else [data[0]] + rest
  }

  /** deleteReading: when the user confirms, every reading with the id is
      removed; otherwise nothing changes. */
  function Delete(data: seq<Reading>, id: Num, confirmed: bool): (r: seq<Reading>)
    ensures !confirmed ==> r == data
    ensures confirmed ==> forall y :: y in r <==> y in data && !SameNumber(y.id, id)
    ensures forall y :: y in r ==> y in data
  {
    if confirmed then Without(data, id) else data
  }

  /** The filter works reading by reading: it distributes over
      concatenation, so the kept readings stay in their order. */
  lemma {:induction false} WithoutAppend(a: seq<Reading>, b: seq<Reading>, id: Num)
    ensures Without(a + b, id) == Without(a, id) + Without(b, id)
  {
    if |a| > 0 {
      var ab := a + b;
      assert ab[0] == a[0] && ab[1..] == a[1..] + b;
      WithoutAppend(a[1..], b, id);
      var tail := Without(a[1..], id) + Without(b, id);
      assert Without(ab, id) == if SameNumber(a[0].id, id) then tail else [a[0]] + tail;
      if !SameNumber(a[0].id, id) {
        assert [a[0]] + tail == ([a[0]] + Without(a[1..], id)) + Without(b, id);
      }
    } else {
      assert a + b == b;
    }
  }

  /** On one reading the filter drops it exactly when its id matches. */
  lemma WithoutSingle(y: Reading, id: Num)
    ensures Without([y], id) == if SameNumber(y.id, id) then [] else [y]
  {
    assert [y][1..] == [];
  }

  /** The filter changes the list exactly when some reading has the id; in
      particular an unknown id, or NaN, deletes nothing. */
  lemma {:induction false} WithoutUnknownId(data: seq<Reading>, id: Num)
    ensures Without(data, id) == data <==>
      forall k :: 0 <= k < |data| ==> !SameNumber(data[k].id, id)
  {
    if |data| > 0 {
      var tail := data[1..];
      WithoutUnknownId(tail, id);
      if SameNumber(data[0].id, id) {
        assert |Without(data, id)| < |data|;
      } else {
        WithoutKeepsHead(data, id);
        NoMatchInTail(data, id);
      }
    }
  }

  /** A head that does not match stays, so the filter changes the list iff
      it changes the tail. */
  lemma WithoutKeepsHead(data: seq<Reading>, id: Num)
    requires |data| > 0 && !SameNumber(data[0].id, id)
    ensures Without(data, id) == data <==> Without(data[1..], id) == data[1..]
  {
    var tail := data[1..];
    assert data == [data[0]] + tail;
    assert Without(data, id) == [data[0]] + Without(tail, id);
    if Without(data, id) == data {
      assert Without(tail, id) == Without(data, id)[1..];
    }
  }

  /** With a head that does not match, no reading matches iff no reading of
      the tail does. */
  lemma NoMatchInTail(data: seq<Reading>, id: Num)
    requires |data| > 0 && !SameNumber(data[0].id, id)
    ensures (forall k :: 0 <= k < |data| ==> !SameNumber(data[k].id, id)) <==>
            (forall k :: 0 <= k < |data[1..]| ==> !SameNumber(data[1..][k].id, id))
  {
    assert forall k :: 0 < k < |data| ==> data[k] == data[1..][k - 1];
  }

  /** A NaN id matches no reading, so deleting it changes nothing. */
  lemma DeleteNaNIsNoOp(data: seq<Reading>, confirmed: bool)
    ensures Delete(data, NaN, confirmed) == data
  {
    WithoutUnknownId(data, NaN);
  }

  /** Deleting keeps a sorted list sorted. */
  lemma {:induction false} WithoutKeepsOrder(data: seq<Reading>, id: Num)
    requires Sorted(data)
    ensures Sorted(Without(data, id))
  {
    if |data| > 0 {
      SortedTail(data);
      WithoutKeepsOrder(data[1..], id);
      var rest := Without(data[1..], id);
      if !SameNumber(data[0].id, id) {
        forall j | 0 <= j < |rest| ensures InOrder(data[0], rest[j]) {
          assert rest[j] in rest;
          var m :| 0 <= m < |data[1..]| && data[1..][m] == rest[j];
          assert data[m + 1] == rest[j];
        }
        SortedCons(data[0], rest);
      }
    }
  }

  /** Deleting keeps a slot-unique list slot-unique. */
  lemma {:induction false} WithoutKeepsSlotsUnique(data: seq<Reading>, id: Num)
    requires SlotUnique(data)
    ensures SlotUnique(Without(data, id))
  {
    if |data| > 0 {
      var tail := data[1..];
      assert SlotUnique(tail) by {
        forall i, j | 0 <= i < j < |tail| ensures !InSlot(tail[j], tail[i].date, tail[i].time) {
          assert tail[i] == data[i + 1] && tail[j] == data[j + 1];
        }
      }
      WithoutKeepsSlotsUnique(tail, id);
      var rest := Without(tail, id);
      if !SameNumber(data[0].id, id) {
        assert !SlotTaken(rest, data[0].date, data[0].time) by {
          forall j | 0 <= j < |rest| ensures !InSlot(rest[j], data[0].date, data[0].time) {
            assert rest[j] in rest;
            var m :| 0 <= m < |tail| && tail[m] == rest[j];
            assert data[m + 1] == rest[j];
          }
        }
        UniqueCons(data[0], rest);
      }
    }
  }

  /** Deleting keeps the list reloadable. */
  lemma DeleteKeepsStable(data: seq<Reading>, id: Num, confirmed: bool)
    requires AllStable(data)
    ensures AllStable(Delete(data, id, confirmed))
  {
    var r := Delete(data, id, confirmed);
    forall k | 0 <= k < |r| ensures Stable(r[k]) {
      assert r[k] in r;
      var j :| 0 <= j < |data| && data[j] == r[k];
    }
  }

  // ---------------------------------------------------------------------
  // Import, restore

  /** handleFileImport: the file's readings replace the list only when
      there is at least one and the user confirms. */
  function Import(data: seq<Reading>, text: string, now: nat, confirmed: bool): (r: seq<Reading>)
    ensures confirmed && |ParseCsv(text, now)| > 0 ==> r == ParseCsv(text, now)
    ensures !confirmed || ParseCsv(text, now) == [] ==> r == data
  {
    var imported := ParseCsv(text, now);
    if |imported| > 0 && confirmed then imported else data
  }

  /** loadData on the page: a missing or empty saved text leaves the list
      empty. */
  function Restore(saved: Option<string>, now: nat): (r: seq<Reading>)
    ensures saved.None? || saved.value == "" ==> r == []
    ensures saved.Some? && saved.value != "" ==> r == ParseCsv(saved.value, now)
  {
    if saved.Some? && saved.value != "" then ParseCsv(saved.value, now) else []
  }

  /** A stable list is read back exactly by the page. */
  lemma StableRoundTrip(data: seq<Reading>, now: nat)
    requires AllStable(data)
    ensures ParseCsv(Serialize(data), now) == data
  {
    PageRoundTripExact(data, now);
  }

  /** What the page saves after any change it restores on the next load,
      provided the list is stable. */
  lemma RestoreAfterSave(data: seq<Reading>, now: nat)
    requires AllStable(data)
    ensures Restore(Some(Serialize(data)), now) == data
  {
    assert Serialize(data) != "" by {
      HeaderIsPlain();
      assert Serialize(data)[|Serialize(data)| - 1] == '\n';
    }
    StableRoundTrip(data, now);
  }

  /** Importing an export of a non-empty stable list, confirmed, gives that
      list back. */
  lemma ExportImportRoundTrip(current: seq<Reading>, data: seq<Reading>, now: nat)
    requires |data| > 0 && AllStable(data)
    ensures Import(current, Serialize(data), now, true) == data
  {
    StableRoundTrip(data, now);
  }

  /** Importing the export of an empty list changes nothing. */
  lemma EmptyExportImportsNothing(current: seq<Reading>, now: nat, confirmed: bool)
    ensures Import(current, Serialize([]), now, confirmed) == current
  {
    PageRoundTripList([], now);
  }
}
