/** The reading record, its (date, AM/PM) slot, and the order the tracker
    keeps its list in: date descending, and within one date the PM reading
    before the AM reading. */
module Records {
  import opened JsNumbers

  /** The time-of-day field. The tracker itself only writes "AM" and "PM";
      text read back from a file can hold anything, kept as `Other`. */
  datatype Slot = AM | PM | Other(text: string)

  function SlotText(t: Slot): string {
    match t
    case AM => "AM"
    case PM => "PM"
    case Other(s) => s
  }

  /** A slot whose `Other` text is not one of the two names. */
  predicate Canonical(t: Slot) {
    t.Other? ==> t.text != "AM" && t.text != "PM"
  }

  /** The slot a time field's text denotes. */
  function SlotOf(s: string): (t: Slot)
    ensures SlotText(t) == s && Canonical(t)
  {
    if s == "AM" then AM else if s == "PM" then PM else Other(s)
  }

  /** For canonical slots, comparing slots is comparing their texts, which is
      what the source's `===` on the time field does. */
  lemma SlotEqualityIsTextEquality(a: Slot, b: Slot)
    requires Canonical(a) && Canonical(b)
    ensures a == b <==> SlotText(a) == SlotText(b)
  {
  }

  /** One blood-pressure reading. Numbers are JavaScript numbers, so a
      field parsed from bad text can be NaN; a missing heart rate is null. */
  datatype Reading = Reading(
    id: Num,
    date: string,
    time: Slot,
    systolic: Num,
    diastolic: Num,
    heartRate: Option<Num>)

  predicate InSlot(r: Reading, date: string, time: Slot) {
    r.date == date && r.time == time
  }

  /** Some reading of `data` already occupies the slot. */
  predicate SlotTaken(data: seq<Reading>, date: string, time: Slot) {
    exists i :: 0 <= i < |data| && InSlot(data[i], date, time)
  }

  /** No two readings share a (date, time) slot. */
  predicate SlotUnique(data: seq<Reading>) {
    forall i, j :: 0 <= i < j < |data| ==>
      !InSlot(data[j], data[i].date, data[i].time)
  }

  // ---------------------------------------------------------------------
  // Dates are compared as strings, code point by code point.

  /** Lexicographic `a < b`. */
  predicate StrLess(a: string, b: string)
    decreases |a|
  {
    if |a| == 0 then |b| > 0
    else if |b| == 0 then false
    else if a[0] != b[0] then a[0] < b[0]
    else StrLess(a[1..], b[1..])
  }

  lemma {:induction false} StrLessIrreflexive(a: string)
    ensures !StrLess(a, a)
  {
    if |a| > 0 {
      StrLessIrreflexive(a[1..]);
    }
  }

  lemma {:induction false} StrLessTransitive(a: string, b: string, c: string)
    requires StrLess(a, b) && StrLess(b, c)
    ensures StrLess(a, c)
    decreases |a|
  {
    if |a| > 0 && |b| > 0 && |c| > 0 && a[0] == b[0] == c[0] {
      StrLessTransitive(a[1..], b[1..], c[1..]);
    }
  }

  lemma {:induction false} StrLessTotal(a: string, b: string)
    requires a != b
    ensures StrLess(a, b) || StrLess(b, a)
    decreases |a|
  {
    if |a| > 0 && |b| > 0 && a[0] == b[0] {
      assert a == [a[0]] + a[1..] && b == [b[0]] + b[1..];
      StrLessTotal(a[1..], b[1..]);
    }
  }

  lemma {:induction false} StrLessAsymmetric(a: string, b: string)
    requires StrLess(a, b)
    ensures !StrLess(b, a)
  {
    if StrLess(b, a) {
      StrLessTransitive(a, b, a);
      StrLessIrreflexive(a);
    }
  }

  // ---------------------------------------------------------------------
  // The list order: the source's comparator sorts by date descending and
  // puts a PM reading first among equal dates.

  /** 0 for PM, 1 for every other slot. */
  function Rank(t: Slot): nat {
    if t == PM then 0 else 1
  }

  /** `a` may stand before `b` in the list. */
  predicate InOrder(a: Reading, b: Reading) {
    StrLess(b.date, a.date) || (a.date == b.date && Rank(a.time) <= Rank(b.time))
  }

  predicate Sorted(data: seq<Reading>) {
    forall i, j :: 0 <= i < j < |data| ==> InOrder(data[i], data[j])
  }

  lemma InOrderTotal(a: Reading, b: Reading)
    ensures InOrder(a, b) || InOrder(b, a)
  {
    if a.date != b.date {
      StrLessTotal(a.date, b.date);
    }
  }

  lemma InOrderTransitive(a: Reading, b: Reading, c: Reading)
    requires InOrder(a, b) && InOrder(b, c)
    ensures InOrder(a, c)
  {
    if StrLess(b.date, a.date) && StrLess(c.date, b.date) {
      StrLessTransitive(c.date, b.date, a.date);
    }
  }

  /** Two readings each allowed before the other agree on date and rank. */
  lemma InOrderAntisymmetric(a: Reading, b: Reading)
    requires InOrder(a, b) && InOrder(b, a)
    ensures a.date == b.date && Rank(a.time) == Rank(b.time)
  {
    if StrLess(b.date, a.date) {
      StrLessAsymmetric(b.date, a.date);
    } else if StrLess(a.date, b.date) {
      StrLessAsymmetric(a.date, b.date);
    }
  }

  /** A reading that may precede every reading of a sorted list can lead it. */
  lemma SortedCons(x: Reading, data: seq<Reading>)
    requires Sorted(data)
    requires forall j :: 0 <= j < |data| ==> InOrder(x, data[j])
    ensures Sorted([x] + data)
  {
    var r := [x] + data;
    forall i, j | 0 <= i < j < |r| ensures InOrder(r[i], r[j]) {
      assert r[j] == data[j - 1];
      if i > 0 { assert r[i] == data[i - 1]; }
    }
  }

  /** The head of a sorted list may precede everything that follows it,
      including a reading it may precede that is inserted later. */
  lemma HeadLeads(data: seq<Reading>, x: Reading, tail: seq<Reading>)
    requires |data| > 0 && Sorted(data) && InOrder(data[0], x)
    requires multiset(tail) == multiset(data[1..]) + multiset{x}
    ensures forall j :: 0 <= j < |tail| ==> InOrder(data[0], tail[j])
  {
    forall j | 0 <= j < |tail| ensures InOrder(data[0], tail[j]) {
      assert tail[j] in multiset(tail);
      if tail[j] != x {
        assert tail[j] in multiset(data[1..]);
        var k :| 0 <= k < |data[1..]| && data[1..][k] == tail[j];
        assert data[k + 1] == tail[j];
      }
    }
  }

  /** Places `x` into a sorted list before the first reading it may precede. */
  function Insert(x: Reading, data: seq<Reading>): (r: seq<Reading>)
    requires Sorted(data)
    ensures Sorted(r)
    ensures multiset(r) == multiset(data) + multiset{x}
  {
    if |data| == 0 then [x]
    else if InOrder(x, data[0]) then
      forall j | 0 < j < |data| ensures InOrder(x, data[j]) {
        InOrderTransitive(x, data[0], data[j]);
      }
      SortedCons(x, data);
      [x] + data
    else
      InOrderTotal(x, data[0]);
      var tail := Insert(x, data[1..]);
      HeadLeads(data, x, tail);
      SortedCons(data[0], tail);
      assert data == [data[0]] + data[1..];
      [data[0]] + tail
  }

  /** The list the source's sort produces: a sorted permutation. */
  function Sort(data: seq<Reading>): (r: seq<Reading>)
    ensures Sorted(r)
    ensures multiset(r) == multiset(data)
  {
    if |data| == 0 then []
    else
      assert data == [data[0]] + data[1..];
      Insert(data[0], Sort(data[1..]))
  }

  /** Readings of a multiset-equal list are the same readings. */
  lemma SameElements(a: seq<Reading>, b: seq<Reading>, y: Reading)
    requires multiset(a) == multiset(b)
    ensures y in a <==> y in b
  {
    assert y in a <==> y in multiset(a);
    assert y in b <==> y in multiset(b);
  }

  /** A list is slot-unique when its tail is and its head's slot is not
      taken in the tail. */
  lemma UniqueFromTail(data: seq<Reading>)
    requires |data| > 0 && SlotUnique(data[1..])
    requires !SlotTaken(data[1..], data[0].date, data[0].time)
    ensures SlotUnique(data)
  {
    forall i, j | 0 <= i < j < |data|
      ensures !InSlot(data[j], data[i].date, data[i].time)
    {
      assert data[j] == data[1..][j - 1];
      if i > 0 { assert data[i] == data[1..][i - 1]; }
    }
  }

  /** A reading in a fresh slot keeps a slot-unique list slot-unique. */
  lemma UniqueCons(x: Reading, data: seq<Reading>)
    requires SlotUnique(data)
    requires !SlotTaken(data, x.date, x.time)
    ensures SlotUnique([x] + data)
  {
    assert ([x] + data)[1..] == data;
    UniqueFromTail([x] + data);
  }

  /** Dropping one reading keeps a list slot-unique. */
  lemma UniqueWithout(a: seq<Reading>, k: nat)
    requires k < |a| && SlotUnique(a)
    ensures SlotUnique(a[..k] + a[k + 1..])
  {
    var a' := a[..k] + a[k + 1..];
    forall i, j | 0 <= i < j < |a'|
      ensures !InSlot(a'[j], a'[i].date, a'[i].time)
    {
      var i' := if i < k then i else i + 1;
      var j' := if j < k then j else j + 1;
      assert a'[i] == a[i'] && a'[j] == a[j'];
    }
  }

  /** A position at which a reading of the list stands. */
  lemma PositionOf(a: seq<Reading>, y: Reading) returns (k: nat)
    requires y in multiset(a)
    ensures k < |a| && a[k] == y
  {
    k :| 0 <= k < |a| && a[k] == y;
  }

  lemma MultisetWithout(a: seq<Reading>, k: nat)
    requires k < |a|
    ensures multiset(a[..k] + a[k + 1..]) == multiset(a) - multiset{a[k]}
  {
    assert a == a[..k] + [a[k]] + a[k + 1..];
  }

  /** Dropping the same reading from two permutations of each other leaves
      permutations of each other. */
  lemma MatchedHeadsLeavePermutation(a: seq<Reading>, b: seq<Reading>, k: nat)
    requires multiset(a) == multiset(b)
    requires |b| > 0 && k < |a| && a[k] == b[0]
    ensures multiset(a[..k] + a[k + 1..]) == multiset(b[1..])
  {
    MultisetWithout(a, k);
    assert b == [b[0]] + b[1..];
  }

  /** Slot uniqueness depends only on which readings a list holds. */
  lemma {:induction false} UniqueUnderPermutation(a: seq<Reading>, b: seq<Reading>)
    requires multiset(a) == multiset(b)
    requires SlotUnique(a)
    ensures SlotUnique(b)
    decreases |a|
  {
    if |b| > 0 {
      var y := b[0];
      assert y in multiset(a) by { assert y in multiset(b); }
      var k := PositionOf(a, y);
      var a' := a[..k] + a[k + 1..];
      MatchedHeadsLeavePermutation(a, b, k);
      assert SlotUnique(b[1..]) by {
        UniqueWithout(a, k);
        UniqueUnderPermutation(a', b[1..]);
      }
      assert !SlotTaken(b[1..], y.date, y.time) by {
        FreshSlotAfterRemoval(a, k, b[1..]);
      }
      UniqueFromTail(b);
    }
  }

  /** Once the reading at `k` is dropped from a slot-unique list, nothing
      left in it (in any order) shares that reading's slot. */
  lemma FreshSlotAfterRemoval(a: seq<Reading>, k: nat, rest: seq<Reading>)
    requires k < |a| && SlotUnique(a)
    requires multiset(rest) == multiset(a[..k] + a[k + 1..])
    ensures !SlotTaken(rest, a[k].date, a[k].time)
  {
    var a' := a[..k] + a[k + 1..];
    if SlotTaken(rest, a[k].date, a[k].time) {
      var m :| 0 <= m < |rest| && InSlot(rest[m], a[k].date, a[k].time);
      SameElements(a', rest, rest[m]);
      assert false;
    }
  }

  /** Sorting keeps a slot-unique list slot-unique. */
  lemma SortKeepsSlotsUnique(data: seq<Reading>)
    requires SlotUnique(data)
    ensures SlotUnique(Sort(data))
  {
    UniqueUnderPermutation(data, Sort(data));
  }

  /** No two readings share a date and a rank: slot-unique and only AM/PM. */
  predicate KeysDistinct(data: seq<Reading>) {
    forall i, j :: 0 <= i < j < |data| ==>
      !(data[i].date == data[j].date && Rank(data[i].time) == Rank(data[j].time))
  }

  /** For slot-unique AM/PM readings the order leaves no ties. */
  lemma UniqueSlotsHaveDistinctKeys(data: seq<Reading>)
    requires SlotUnique(data)
    requires forall i :: 0 <= i < |data| ==> !data[i].time.Other?
    ensures KeysDistinct(data)
  {
  }

  lemma SortedTail(a: seq<Reading>)
    requires |a| > 0 && Sorted(a)
    ensures Sorted(a[1..])
  {
    forall i, j | 0 <= i < j < |a| - 1 ensures InOrder(a[1..][i], a[1..][j]) {
      assert a[1..][i] == a[i + 1] && a[1..][j] == a[j + 1];
    }
  }

  lemma DistinctTail(a: seq<Reading>)
    requires |a| > 0 && KeysDistinct(a)
    ensures KeysDistinct(a[1..])
  {
    forall i, j | 0 <= i < j < |a| - 1
      ensures !(a[1..][i].date == a[1..][j].date && Rank(a[1..][i].time) == Rank(a[1..][j].time))
    {
      assert a[1..][i] == a[i + 1] && a[1..][j] == a[j + 1];
    }
  }

  /** Two sorted arrangements of the same tie-free readings start alike. */
  lemma SortedHeadsAgree(a: seq<Reading>, b: seq<Reading>)
    requires |a| > 0 && Sorted(a) && Sorted(b)
    requires multiset(a) == multiset(b)
    requires KeysDistinct(a)
    ensures |b| > 0 && a[0] == b[0]
  {
    assert a[0] in multiset(a);
    var j := PositionOf(b, a[0]);
    assert b[0] in multiset(b);
    var k := PositionOf(a, b[0]);
    if k != 0 {
      assert InOrder(a[0], a[k]);
      assert InOrder(b[0], b[j]);
      InOrderAntisymmetric(a[0], a[k]);
      assert false;
    }
  }

  /** When no two readings tie under the order, there is only one sorted
      arrangement of them: any sorting algorithm gives `Sort`'s answer. */
  lemma {:induction false} SortedPermutationUnique(a: seq<Reading>, b: seq<Reading>)
    requires Sorted(a) && Sorted(b)
    requires multiset(a) == multiset(b)
    requires KeysDistinct(a)
    ensures a == b
    decreases |a|
  {
    if |a| > 0 {
      SortedHeadsAgree(a, b);
      var a', b' := a[1..], b[1..];
      assert multiset(a') == multiset(b') by {
        MultisetTail(a);
        MultisetTail(b);
      }
      assert Sorted(a') && Sorted(b') && KeysDistinct(a') by {
        SortedTail(a);
        SortedTail(b);
        DistinctTail(a);
      }
      SortedPermutationUnique(a', b');
      assert a == [a[0]] + a' && b == [b[0]] + b';
    } else {
      assert |b| == |multiset(b)| == 0;
    }
  }

  lemma MultisetTail(a: seq<Reading>)
    requires |a| > 0
    ensures multiset(a[1..]) == multiset(a) - multiset{a[0]}
  {
    assert a == [a[0]] + a[1..];
  }

  /** The result the source's sort gives a slot-unique AM/PM list is the
      modelled `Sort`, whatever order the list was in. */
  lemma SortIsDetermined(data: seq<Reading>, sorted: seq<Reading>)
    requires SlotUnique(data)
    requires forall i :: 0 <= i < |data| ==> !data[i].time.Other?
    requires Sorted(sorted) && multiset(sorted) == multiset(data)
    ensures sorted == Sort(data)
  {
    UniqueSlotsHaveDistinctKeys(data);
    SortKeepsSlotsUnique(data);
    var s := Sort(data);
    forall i | 0 <= i < |s| ensures !s[i].time.Other? {
      SameElements(s, data, s[i]);
    }
    UniqueSlotsHaveDistinctKeys(s);
    SortedPermutationUnique(s, sorted);
  }
}
