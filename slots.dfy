/** The free half-hour slots of a dentist's working day: the times from the start of
    the day's working hours, in 30-minute steps, strictly before its end, without the
    times held by an active appointment. */
module Slots {
  import opened Wrappers
  import opened Strings
  import opened TimeOfDay

  const SlotMinutes: nat := 30

  /** One day's entry of a dentist's working hours: two free-form texts. */
  datatype Hours = Hours(start: Option<string>, end: Option<string>)

  /** The working window of a day in minutes, read as `HH:mm`; absent when the day has
      no entry, the entry lacks a start or an end, or either fails to read as a time. */
  function Window(entry: Option<Hours>): (w: Option<(nat, nat)>)
    ensures w.Some? <==>
      entry.Some? && Truthy(entry.value.start) && Truthy(entry.value.end)
      && ParseTime(entry.value.start.value).Some? && ParseTime(entry.value.end.value).Some?
    ensures w.Some? ==>
      Some(w.value.0) == ParseTime(entry.value.start.value) && Some(w.value.1) == ParseTime(entry.value.end.value)
      && w.value.1 < MinutesPerDay
  {
    if entry.None? || !Truthy(entry.value.start) || !Truthy(entry.value.end) then None
    else
      var s, e := ParseTime(entry.value.start.value), ParseTime(entry.value.end.value);
      if s.None? || e.None? then None else Some((s.value, e.value))
  }

  /** A slot of the session starting at `t`: `m` is `t` plus a whole number of steps
      and lies before `end`. */
  predicate OnGrid(t: nat, end: nat, m: nat) {
    t <= m < end && (m - t) % SlotMinutes == 0
  }

  /** `s` is a slot the session from `t` to `end` may offer: the `HH:mm` rendering of
      a grid minute that is not among the `booked` times. */
  predicate SlotOf(t: nat, end: nat, booked: set<string>, s: string) {
    ParseTime(s).Some? && OnGrid(t, end, ParseTime(s).value)
    && s == FormatTime(ParseTime(s).value) && s !in booked
  }

  /** The free slots from `t` up to `end`, rendered `HH:mm`, skipping any whose
      rendering is among the `booked` times. */
  function FreeSlots(t: nat, end: nat, booked: set<string>): (r: seq<string>)
    requires end <= MinutesPerDay
    ensures t >= end ==> r == []
    decreases end - t
  {
    if t >= end then []
    else
      var slot := FormatTime(t);
      (if slot in booked then [] else [slot]) + FreeSlots(t + SlotMinutes, end, booked)
  }

  /** Every offered slot is an unbooked grid minute of the session. */
  lemma {:induction false} FreeSlotsSound(t: nat, end: nat, booked: set<string>)
    requires end <= MinutesPerDay
    ensures forall s :: s in FreeSlots(t, end, booked) ==> SlotOf(t, end, booked, s)
    decreases end - t
  {
    if t < end {
      var rest := FreeSlots(t + SlotMinutes, end, booked);
      FreeSlotsSound(t + SlotMinutes, end, booked);
      forall s | s in rest
        ensures SlotOf(t, end, booked, s)
      {
        GridStep(t, end, ParseTime(s).value);
      }
      ParseFormatTime(t);
      assert OnGrid(t, end, t);
    }
  }

  lemma GridStep(t: nat, end: nat, m: nat)
    requires OnGrid(t + SlotMinutes, end, m)
    ensures OnGrid(t, end, m)
  {
    assert m - t == (m - (t + SlotMinutes)) + SlotMinutes;
  }

  /** The times of `r` read as minutes that strictly ascend. */
  predicate Ascending(r: seq<string>) {
    forall i, j :: 0 <= i < j < |r| ==>
      ParseTime(r[i]).Some? && ParseTime(r[j]).Some? && ParseTime(r[i]).value < ParseTime(r[j]).value
  }

  lemma AscendingCons(x: string, m: nat, rest: seq<string>)
    requires ParseTime(x) == Some(m) && Ascending(rest)
    requires forall s :: s in rest ==> ParseTime(s).Some? && ParseTime(s).value > m
    ensures Ascending([x] + rest)
  {
    var r := [x] + rest;
    forall i, j | 0 <= i < j < |r|
      ensures ParseTime(r[i]).Some? && ParseTime(r[j]).Some? && ParseTime(r[i]).value < ParseTime(r[j]).value
    {
      assert r[j] == rest[j - 1] && rest[j - 1] in rest;
      if i > 0 {
        assert r[i] == rest[i - 1];
      }
    }
  }

  /** Every offered slot reads as a minute later than any minute before the session's
      start. */
  lemma SlotsAfter(t: nat, end: nat, booked: set<string>, m: nat)
    requires end <= MinutesPerDay && m < t
    ensures forall s :: s in FreeSlots(t, end, booked) ==> ParseTime(s).Some? && ParseTime(s).value > m
  {
    FreeSlotsSound(t, end, booked);
    forall s | s in FreeSlots(t, end, booked)
      ensures ParseTime(s).Some? && ParseTime(s).value > m
    {
      assert SlotOf(t, end, booked, s);
    }
  }

  /** Putting the current slot, when free, in front of the ascending later slots keeps
      them ascending. */
  lemma AscendingStep(t: nat, end: nat, booked: set<string>)
    requires t < end <= MinutesPerDay
    requires Ascending(FreeSlots(t + SlotMinutes, end, booked))
    ensures Ascending(FreeSlots(t, end, booked))
  {
    var slot := FormatTime(t);
    var rest := FreeSlots(t + SlotMinutes, end, booked);
    FreeSlotsStep(t, end, booked);
    if slot !in booked {
      SlotsAfter(t + SlotMinutes, end, booked, t);
      ParseFormatTime(t);
      AscendingCons(slot, t, rest);
      assert FreeSlots(t, end, booked) == [slot] + rest;
    } else {
      assert [] + rest == rest;
      assert FreeSlots(t, end, booked) == rest;
    }
  }

  /** The offered slots ascend strictly in time. */
  lemma {:induction false} FreeSlotsAscending(t: nat, end: nat, booked: set<string>)
    requires end <= MinutesPerDay
    ensures Ascending(FreeSlots(t, end, booked))
    decreases end - t
  {
    if t < end {
      FreeSlotsAscending(t + SlotMinutes, end, booked);
      AscendingStep(t, end, booked);
    }
  }

  /** Every step of the window whose rendering is not booked is offered. */
  lemma {:induction false} FreeSlotsComplete(t: nat, end: nat, booked: set<string>, m: nat)
    requires end <= MinutesPerDay && OnGrid(t, end, m) && FormatTime(m) !in booked
    ensures FormatTime(m) in FreeSlots(t, end, booked)
    decreases end - t
  {
    if m != t {
      FreeSlotsComplete(t + SlotMinutes, end, booked, m);
    }
  }

  /** The offered slots ascend as text too, so they come back in chronological order
      whichever way they are compared. */
  lemma FreeSlotsAscendAsText(t: nat, end: nat, booked: set<string>)
    requires end <= MinutesPerDay
    ensures var r := FreeSlots(t, end, booked);
      forall i, j :: 0 <= i < j < |r| ==> LexLess(r[i], r[j])
  {
    var r := FreeSlots(t, end, booked);
    FreeSlotsSound(t, end, booked);
    FreeSlotsAscending(t, end, booked);
    forall i, j | 0 <= i < j < |r|
      ensures LexLess(r[i], r[j])
    {
      assert r[i] in r && r[j] in r;
      var a, b := ParseTime(r[i]).value, ParseTime(r[j]).value;
      assert a < b;
      assert r[i] == FormatTime(a) && r[j] == FormatTime(b);
      FormatTimeOrder(a, b);
    }
  }

  /** The slots a day's entry offers given its booked times. */
  function DaySlots(entry: Option<Hours>, booked: set<string>): (r: seq<string>)
    ensures Window(entry).None? ==> r == []
  {
    match Window(entry)
    case None => []
    case Some((s, e)) => FreeSlots(s, e, booked)
  }

  lemma FreeSlotsStep(t: nat, end: nat, booked: set<string>)
    requires t < end <= MinutesPerDay
    ensures FreeSlots(t, end, booked) ==
      (if FormatTime(t) in booked then [] else [FormatTime(t)]) + FreeSlots(t + SlotMinutes, end, booked)
  {
  }

  /** One turn of the loop below: keeping the current slot if it is free and moving the
      clock one step leaves the slots so far followed by the rest of the window
      unchanged. */
  lemma LoopStep(slots: seq<string>, slot: string, t: nat, end: nat, booked: set<string>)
    requires t < end <= MinutesPerDay && slot == FormatTime(t)
    ensures slots + FreeSlots(t, end, booked) ==
      (if slot in booked then slots else slots + [slot]) + FreeSlots(t + SlotMinutes, end, booked)
  {
    FreeSlotsStep(t, end, booked);
    if slot !in booked {
      assert slots + ([slot] + FreeSlots(t + SlotMinutes, end, booked))
        == (slots + [slot]) + FreeSlots(t + SlotMinutes, end, booked);
    }
  }

  /** The controller's loop: step a clock from `start` while it is before `end`,
      keeping each rendering that is not booked. */
  method GenerateSlots(start: nat, end: nat, booked: set<string>) returns (slots: seq<string>)
    requires end <= MinutesPerDay
    ensures slots == FreeSlots(start, end, booked)
  {
    slots := [];
    var t := start;
    ghost var all := FreeSlots(start, end, booked);
    ghost var rest := all;
    while t < end
      invariant rest == FreeSlots(t, end, booked)
      invariant slots + rest == all
      decreases end - t
    {
      var slot := FormatTime(t);
      LoopStep(slots, slot, t, end, booked);
      if slot !in booked {
        slots := slots + [slot];
      }
      t := t + SlotMinutes;
      rest := FreeSlots(t, end, booked);
    }
    assert rest == [];
  }

  /** A free 09:00 to 11:00 morning offers four half-hour slots. */
  lemma FreeMorning()
    ensures FreeSlots(540, 660, {}) == ["09:00", "09:30", "10:00", "10:30"]
  {
    assert FormatTime(540) == "09:00" && FormatTime(570) == "09:30";
    assert FormatTime(600) == "10:00" && FormatTime(630) == "10:30";
  }

  /** A booking at 09:30 removes that slot and no other. */
  lemma BookedSlotRemoved()
    ensures FreeSlots(540, 660, {"09:30"}) == ["09:00", "10:00", "10:30"]
  {
    assert FormatTime(540) == "09:00" && FormatTime(570) == "09:30";
    assert FormatTime(600) == "10:00" && FormatTime(630) == "10:30";
  }

  /** Booked times are matched as exact text: a booking stored as "9:30" does not
      remove the "09:30" slot. */
  lemma UnpaddedBookingDoesNotBlock()
    ensures FreeSlots(540, 660, {"9:30"}) == ["09:00", "09:30", "10:00", "10:30"]
  {
    assert FormatTime(540) == "09:00" && FormatTime(570) == "09:30";
    assert FormatTime(600) == "10:00" && FormatTime(630) == "10:30";
    assert "09:30" != "9:30";
  }

  /** An end at or before the start offers nothing. */
  lemma EmptyWindow(start: nat, end: nat, booked: set<string>)
    requires end <= MinutesPerDay && end <= start
    ensures FreeSlots(start, end, booked) == []
  {
  }
}
