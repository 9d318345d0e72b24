/** Work in flight: what was submitted, what came back or ran late, and that each submission is accounted
    for once. The runner keeps one such table for its collectors and one for its scenario steps. */
module Flights {
  import opened Wrappers

  datatype Flight<K> = Flight(key: K, submitted: real)

  function Keys<K>(flights: seq<Flight<K>>): set<K> {
    set f | f in flights :: f.key
  }

  ghost predicate Distinct<K>(flights: seq<Flight<K>>) {
    forall i, j :: 0 <= i < j < |flights| ==> flights[i].key != flights[j].key
  }

  /** What a pass over the table leaves in it, which of that is late, and the events it wrote. */
  datatype Swept<K, E> = Swept(still: seq<Flight<K>>, late: set<K>, events: seq<E>)

  /** One entry: a result that is there is written unless its timeout was, and an entry past its timeout
      is reported late once. */
  function SweepOne<K(==), E>(
      s: Swept<K, E>, f: Flight<K>, finished: map<K, seq<E>>, timeoutEvent: K -> E, now: real, timeout: real)
    : Swept<K, E>
  {
    if f.key in finished then
      if f.key in s.late then s.(late := s.late - {f.key}) else s.(events := s.events + finished[f.key])
    else if now - f.submitted >= timeout && f.key !in s.late then
      Swept(s.still + [f], s.late + {f.key}, s.events + [timeoutEvent(f.key)])
    else s.(still := s.still + [f])
  }

  function Sweep<K(==), E>(
      flights: seq<Flight<K>>, late: set<K>, finished: map<K, seq<E>>, timeoutEvent: K -> E, now: real, timeout: real)
    : Swept<K, E>
  {
    if flights == [] then Swept([], late, [])
    else
      SweepOne(Sweep(flights[..|flights| - 1], late, finished, timeoutEvent, now, timeout),
               flights[|flights| - 1], finished, timeoutEvent, now, timeout)
  }

  method SweepInOrder<K(==, !new), E(!new)>(
      flights: seq<Flight<K>>, lateBefore: set<K>, finished: map<K, seq<E>>, timeoutEvent: K -> E,
      now: real, timeout: real)
    returns (still: seq<Flight<K>>, late: set<K>, events: seq<E>)
    ensures Swept(still, late, events) == Sweep(flights, lateBefore, finished, timeoutEvent, now, timeout)
    ensures Distinct(flights) ==>
              SweptRight(Swept(still, late, events), flights, lateBefore, finished, timeoutEvent, now, timeout)
  {
    still, late, events := [], lateBefore, [];
    for i := 0 to |flights|
      invariant Swept(still, late, events) == Sweep(flights[..i], lateBefore, finished, timeoutEvent, now, timeout)
    {
      var f := flights[i];
      assert flights[..i + 1][..i] == flights[..i];
      if f.key in finished {
        if f.key in late {
          late := late - {f.key};
          continue;
        }
        events := events + finished[f.key];
      } else {
        if now - f.submitted >= timeout && f.key !in late {
          late := late + {f.key};
          events := events + [timeoutEvent(f.key)];
        }
        still := still + [f];
      }
    }
    assert flights[..|flights|] == flights;
    if Distinct(flights) {
      SweepIsRight(flights, lateBefore, finished, timeoutEvent, now, timeout);
    }
  }

  /** What one entry makes a pass write: its result when it has come and the entry was not late, or that it is late,
      when it has not come, the entry was not late yet, and `timeout` has gone by since it was submitted. */
  ghost predicate Writes<K, E>(
      f: Flight<K>, late: set<K>, finished: map<K, seq<E>>, timeoutEvent: K -> E, now: real, timeout: real, e: E)
  {
    && f.key !in late
    && if f.key in finished then e in finished[f.key] else now - f.submitted >= timeout && e == timeoutEvent(f.key)
  }

  /** A pass over entries of different keys, said of the entries and the events. */
  ghost predicate SweptRight<K(!new), E(!new)>(
      s: Swept<K, E>, flights: seq<Flight<K>>, late: set<K>, finished: map<K, seq<E>>, timeoutEvent: K -> E,
      now: real, timeout: real)
  {
    && (forall f :: f in s.still <==> f in flights && f.key !in finished)
    && (forall f :: f in flights ==>
          (f.key in s.late <==> f.key !in finished && (f.key in late || now - f.submitted >= timeout)))
    && (forall key :: key !in Keys(flights) ==> (key in s.late <==> key in late))
    && (forall e :: e in s.events
          <==> exists f :: f in flights && Writes(f, late, finished, timeoutEvent, now, timeout, e))
  }

  lemma KeysAreDistinct<K>(flights: seq<Flight<K>>, f: Flight<K>, g: Flight<K>)
    requires Distinct(flights) && f in flights && g in flights && f.key == g.key
    ensures f == g
  {
    var i :| 0 <= i < |flights| && flights[i] == f;
    var j :| 0 <= j < |flights| && flights[j] == g;
  }

  lemma SweepOneIsRight<K(!new), E(!new)>(
      s: Swept<K, E>, flights: seq<Flight<K>>, f: Flight<K>, late: set<K>, finished: map<K, seq<E>>,
      timeoutEvent: K -> E, now: real, timeout: real)
    requires SweptRight(s, flights, late, finished, timeoutEvent, now, timeout) && f.key !in Keys(flights)
    ensures SweptRight(SweepOne(s, f, finished, timeoutEvent, now, timeout), flights + [f], late, finished,
                       timeoutEvent, now, timeout)
  {
    var r, more := SweepOne(s, f, finished, timeoutEvent, now, timeout), flights + [f];
    assert forall g :: g in more <==> g in flights || g == f;
    assert forall g :: g in flights ==> g.key in Keys(flights);
    assert Keys(more) == Keys(flights) + {f.key};
    assert f.key in s.late <==> f.key in late;
    forall e
      ensures e in r.events <==> e in s.events || Writes(f, late, finished, timeoutEvent, now, timeout, e)
    {}
  }

  /** Exactly the entries that are not finished stay, exactly those of them that were late or for which `timeout` has
      gone by are late afterwards, and what is written is what each entry makes the pass write. */
  lemma {:induction false} SweepIsRight<K(!new), E(!new)>(
      flights: seq<Flight<K>>, late: set<K>, finished: map<K, seq<E>>, timeoutEvent: K -> E, now: real, timeout: real)
    requires Distinct(flights)
    ensures SweptRight(Sweep(flights, late, finished, timeoutEvent, now, timeout), flights, late, finished,
                       timeoutEvent, now, timeout)
  {
    if flights != [] {
      hide SweepOne, SweptRight;
      var front, last := flights[..|flights| - 1], flights[|flights| - 1];
      assert flights == front + [last];
      KeysNext(front, last);
      SweepIsRight(front, late, finished, timeoutEvent, now, timeout);
      SweepOneIsRight(Sweep(front, late, finished, timeoutEvent, now, timeout), front, last, late, finished,
                      timeoutEvent, now, timeout);
    }
  }

  /** The wait at the end writes exactly the results that are there of entries that are not late. */
  lemma {:induction false} DrainIsRight<K(!new), E(!new)>(
      flights: seq<Flight<K>>, late: set<K>, finished: map<K, seq<E>>, e: E)
    ensures e in Drained(flights, late, finished)
            <==> exists f :: f in flights && f.key !in late && f.key in finished && e in finished[f.key]
  {
    if flights != [] {
      var front, last := flights[..|flights| - 1], flights[|flights| - 1];
      assert flights == front + [last];
      assert forall g :: g in flights <==> g in front || g == last;
      DrainIsRight(front, late, finished, e);
    }
  }

  /** The wait at the end of the run: results that are there are written, cancelled work is not. */
  function Drained<K(==), E>(flights: seq<Flight<K>>, late: set<K>, finished: map<K, seq<E>>): seq<E> {
    if flights == [] then [] else
      var key := flights[|flights| - 1].key;
      Drained(flights[..|flights| - 1], late, finished) + if key in late || key !in finished then [] else finished[key]
  }

  method Drain<K(==), E>(flights: seq<Flight<K>>, late: set<K>, finished: map<K, seq<E>>) returns (events: seq<E>)
    ensures events == Drained(flights, late, finished)
  {
    events := [];
    for i := 0 to |flights|
      invariant events == Drained(flights[..i], late, finished)
    {
      assert flights[..i + 1][..i] == flights[..i];
      if flights[i].key in late || flights[i].key !in finished {
        continue;
      }
      events := events + finished[flights[i].key];
    }
    assert flights[..|flights|] == flights;
  }

  // ---- accounting -------------------------------------------------------------------

  /** How many of the events settle the submission `key`. */
  function Settled<K(==), E>(events: seq<E>, settles: E -> Option<K>, key: K): nat {
    if events == [] then 0
    else Settled(events[..|events| - 1], settles, key) + if settles(events[|events| - 1]) == Some(key) then 1 else 0
  }

  /** How many submissions of `key` are neither settled nor late. */
  function Open<K>(flights: seq<Flight<K>>, late: set<K>, key: K): nat {
    if key in Keys(flights) && key !in late then 1 else 0
  }

  /** What came back settles the submission it belongs to, once, and no other. */
  ghost predicate SettlesItsOwn<K(!new), E>(finished: map<K, seq<E>>, settles: E -> Option<K>) {
    forall key, other :: key in finished ==> Settled(finished[key], settles, other) == if other == key then 1 else 0
  }

  lemma {:induction false} SettledConcat<K, E>(a: seq<E>, b: seq<E>, settles: E -> Option<K>, key: K)
    ensures Settled(a + b, settles, key) == Settled(a, settles, key) + Settled(b, settles, key)
  {
    if b == [] {
      assert a + b == a;
    } else {
      SettledConcat(a, b[..|b| - 1], settles, key);
      assert (a + b)[..|a + b| - 1] == a + b[..|b| - 1];
    }
  }

  lemma SettledOne<K, E>(events: seq<E>, e: E, settles: E -> Option<K>, key: K)
    ensures Settled(events + [e], settles, key)
            == Settled(events, settles, key) + if settles(e) == Some(key) then 1 else 0
  {
    assert (events + [e])[..|events|] == events;
  }

  lemma KeysNext<K>(flights: seq<Flight<K>>, f: Flight<K>)
    ensures Keys(flights + [f]) == Keys(flights) + {f.key}
    ensures Distinct(flights + [f]) <==> Distinct(flights) && f.key !in Keys(flights)
  {
    var more := flights + [f];
    assert forall g :: g in more <==> g in flights || g == f;
    assert forall i :: 0 <= i < |flights| ==> more[i] == flights[i];
    assert more[|flights|] == f;
  }

  /** A pass over the table keeps, for every key, what was settled plus what is open. */
  ghost predicate Keeps<K(!new), E>(s: Swept<K, E>, flights: seq<Flight<K>>, late: set<K>, settles: E -> Option<K>) {
    && Distinct(s.still)
    && Keys(s.still) <= Keys(flights)
    && (forall key :: key in s.late && key in Keys(flights) ==> key in Keys(s.still))
    && (forall key :: key !in Keys(flights) ==> (key in s.late <==> key in late))
    && (forall key :: Settled(s.events, settles, key) + Open(s.still, s.late, key) == Open(flights, late, key))
  }

  lemma KeepsOne<K(!new), E>(
      s: Swept<K, E>, flights: seq<Flight<K>>, late: set<K>, f: Flight<K>, finished: map<K, seq<E>>,
      timeoutEvent: K -> E, now: real, timeout: real, settles: E -> Option<K>)
    requires Keeps(s, flights, late, settles) && Distinct(flights + [f])
    requires SettlesItsOwn(finished, settles) && settles(timeoutEvent(f.key)) == Some(f.key)
    ensures Keeps(SweepOne(s, f, finished, timeoutEvent, now, timeout), flights + [f], late, settles)
  {
    hide Keys, Distinct, Settled;
    KeysNext(flights, f);
    KeysNext(s.still, f);
    forall key
      ensures Settled(s.events + [timeoutEvent(f.key)], settles, key)
              == Settled(s.events, settles, key) + if key == f.key then 1 else 0
    {
      SettledOne(s.events, timeoutEvent(f.key), settles, key);
    }
    if f.key in finished {
      forall key
        ensures Settled(s.events + finished[f.key], settles, key)
                == Settled(s.events, settles, key) + if key == f.key then 1 else 0
      {
        SettledConcat(s.events, finished[f.key], settles, key);
      }
    }
  }

  lemma {:induction false} SweepKeeps<K(!new), E>(
      flights: seq<Flight<K>>, late: set<K>, finished: map<K, seq<E>>, timeoutEvent: K -> E, now: real, timeout: real,
      settles: E -> Option<K>)
    requires Distinct(flights)
    requires SettlesItsOwn(finished, settles) && forall key :: settles(timeoutEvent(key)) == Some(key)
    ensures Keeps(Sweep(flights, late, finished, timeoutEvent, now, timeout), flights, late, settles)
  {
    if flights != [] {
      hide SweepOne, Keeps, SettlesItsOwn;
      var front, last := flights[..|flights| - 1], flights[|flights| - 1];
      assert flights == front + [last];
      SweepKeeps(front, late, finished, timeoutEvent, now, timeout, settles);
      KeepsOne(Sweep(front, late, finished, timeoutEvent, now, timeout), front, late, last, finished,
               timeoutEvent, now, timeout, settles);
    }
  }

  /** The wait at the end settles what is open, except for what was cancelled. */
  lemma {:induction false} DrainSettles<K(!new), E>(
      flights: seq<Flight<K>>, late: set<K>, finished: map<K, seq<E>>, settles: E -> Option<K>, key: K)
    requires Distinct(flights) && SettlesItsOwn(finished, settles)
    ensures Settled(Drained(flights, late, finished), settles, key)
            == if key in finished then Open(flights, late, key) else 0
  {
    if flights != [] {
      var front, last := flights[..|flights| - 1], flights[|flights| - 1];
      assert flights == front + [last];
      KeysNext(front, last);
      hide Keys, Distinct, Settled;
      DrainSettles(front, late, finished, settles, key);
      var before := Drained(front, late, finished);
      assert before + [] == before;
      if last.key in finished {
        SettledConcat(before, finished[last.key], settles, key);
      }
    }
  }

  // ---- events of the other table ---------------------------------------------------------

  /** None of the events that can be written settles anything in the other table. */
  ghost predicate Silent<K, E, L(!new)>(finished: map<K, seq<E>>, settles: E -> Option<L>) {
    forall key, other :: key in finished ==> Settled(finished[key], settles, other) == 0
  }

  lemma {:induction false} SweepIsSilent<K, E, L(!new)>(
      flights: seq<Flight<K>>, late: set<K>, finished: map<K, seq<E>>, timeoutEvent: K -> E, now: real, timeout: real,
      settles: E -> Option<L>, other: L)
    requires Silent(finished, settles) && forall key :: settles(timeoutEvent(key)) == None
    ensures Settled(Sweep(flights, late, finished, timeoutEvent, now, timeout).events, settles, other) == 0
  {
    if flights != [] {
      var front, f := flights[..|flights| - 1], flights[|flights| - 1];
      SweepIsSilent(front, late, finished, timeoutEvent, now, timeout, settles, other);
      hide Settled;
      var s := Sweep(front, late, finished, timeoutEvent, now, timeout);
      SettledOne(s.events, timeoutEvent(f.key), settles, other);
      if f.key in finished {
        SettledConcat(s.events, finished[f.key], settles, other);
      }
    }
  }

  lemma {:induction false} DrainIsSilent<K, E, L(!new)>(
      flights: seq<Flight<K>>, late: set<K>, finished: map<K, seq<E>>, settles: E -> Option<L>, other: L)
    requires Silent(finished, settles)
    ensures Settled(Drained(flights, late, finished), settles, other) == 0
  {
    if flights != [] {
      var front, key := flights[..|flights| - 1], flights[|flights| - 1].key;
      DrainIsSilent(front, late, finished, settles, other);
      hide Settled;
      var before := Drained(front, late, finished);
      assert before + [] == before;
      if key in finished {
        SettledConcat(before, finished[key], settles, other);
      }
    }
  }

  // ---- what every event is like ------------------------------------------------------------

  ghost predicate All<E>(events: seq<E>, good: E -> bool) {
    forall i :: 0 <= i < |events| ==> good(events[i])
  }

  lemma AllConcat<E>(a: seq<E>, b: seq<E>, good: E -> bool)
    ensures All(a + b, good) <==> All(a, good) && All(b, good)
  {
    assert forall i :: 0 <= i < |a| ==> (a + b)[i] == a[i];
    assert forall i :: 0 <= i < |b| ==> (a + b)[|a| + i] == b[i];
  }

  /** The entry's result is there and its timeout was not reported. */
  predicate Heard<K(==), E>(flights: seq<Flight<K>>, late: set<K>, finished: map<K, seq<E>>, key: K) {
    key in Keys(flights) && key in finished && key !in late
  }

  lemma SweepOneAll<K, E>(
      s: Swept<K, E>, f: Flight<K>, finished: map<K, seq<E>>, timeoutEvent: K -> E, now: real, timeout: real,
      good: E -> bool)
    requires good(timeoutEvent(f.key))
    ensures All(SweepOne(s, f, finished, timeoutEvent, now, timeout).events, good)
            <==> All(s.events, good) && (f.key in finished && f.key !in s.late ==> All(finished[f.key], good))
    ensures forall key :: key != f.key ==>
              (key in SweepOne(s, f, finished, timeoutEvent, now, timeout).late <==> key in s.late)
  {
    hide All;
    AllConcat(s.events, [timeoutEvent(f.key)], good);
    AllOfOne(timeoutEvent(f.key), good);
    if f.key in finished {
      AllConcat(s.events, finished[f.key], good);
    }
  }

  lemma AllOfOne<E>(e: E, good: E -> bool)
    ensures All([e], good) <==> good(e)
  {
    assert [e][0] == e;
  }

  /** All events of a pass are good if and only if those of the results it heard are. */
  lemma {:induction false} SweepAll<K(!new), E>(
      flights: seq<Flight<K>>, late: set<K>, finished: map<K, seq<E>>, timeoutEvent: K -> E, now: real, timeout: real,
      good: E -> bool)
    requires Distinct(flights) && forall key :: good(timeoutEvent(key))
    ensures var s := Sweep(flights, late, finished, timeoutEvent, now, timeout);
            && (All(s.events, good) <==> forall key :: Heard(flights, late, finished, key) ==> All(finished[key], good))
            && (forall key :: key !in Keys(flights) ==> (key in s.late <==> key in late))
  {
    if flights != [] {
      hide SweepOne, All, Keys, Distinct;
      var front, last := flights[..|flights| - 1], flights[|flights| - 1];
      assert flights == front + [last];
      KeysNext(front, last);
      SweepAll(front, late, finished, timeoutEvent, now, timeout, good);
      SweepOneAll(Sweep(front, late, finished, timeoutEvent, now, timeout), last, finished,
                  timeoutEvent, now, timeout, good);
    }
  }

  /** The same of the wait at the end. */
  lemma {:induction false} DrainAll<K(!new), E>(
      flights: seq<Flight<K>>, late: set<K>, finished: map<K, seq<E>>, good: E -> bool)
    ensures All(Drained(flights, late, finished), good)
            <==> forall key :: Heard(flights, late, finished, key) ==> All(finished[key], good)
  {
    if flights != [] {
      var front, last := flights[..|flights| - 1], flights[|flights| - 1];
      assert flights == front + [last];
      KeysNext(front, last);
      hide All, Keys, Distinct;
      DrainAll(front, late, finished, good);
      var before := Drained(front, late, finished);
      assert before + [] == before;
      if last.key in finished {
        AllConcat(before, finished[last.key], good);
      }
    }
  }
}
