/**
 * The scheduling endpoint that returns an event with its availabilities and a summary
 * counting, for every time slot, how many times it was marked available.
 */
module When2Meet {
  import opened Wrappers

  /** One participant's row: the slots they marked available, duplicates included. */
  datatype Availability = Availability(participant: string, availableSlots: seq<string>)

  /** The body of a successful answer. */
  datatype EventView = EventView(event: map<string, string>, availabilities: seq<Availability>, summary: map<string, nat>)

  datatype HttpError = HttpError(status: int, detail: string)

  /** Every slot of every availability, in order. */
  function AllSlots(avs: seq<Availability>): seq<string> {
    if avs == [] then [] else AllSlots(avs[..|avs| - 1]) + avs[|avs| - 1].availableSlots
  }

  /** `summary.get(slot, 0)` */
  function Get(summary: map<string, nat>, slot: string): nat {
    if slot in summary then summary[slot] else 0
  }

  /** The counter after counting `slots` one after another from empty. */
  function Tally(slots: seq<string>): map<string, nat> {
    if slots == [] then map[]
    else
      var before := Tally(slots[..|slots| - 1]);
      var x := slots[|slots| - 1];
      before[x := Get(before, x) + 1]
  }

  /** The sum of a counter's values. */
  ghost function Total(m: map<string, nat>): nat
    decreases |m.Keys|
  {
    if m == map[] then 0
    else
      var k :| k in m;
      m[k] + Total(m - {k})
  }

  /** The sum can be taken starting from any key. */
  lemma {:induction false} TotalRemove(m: map<string, nat>, k: string)
    requires k in m
    ensures Total(m) == m[k] + Total(m - {k})
    decreases |m.Keys|
  {
    var j :| j in m && Total(m) == m[j] + Total(m - {j});
    if j != k {
      assert |(m - {j}).Keys| < |m.Keys| by {
        assert (m - {j}).Keys < m.Keys;
      }
      assert |(m - {k}).Keys| < |m.Keys| by {
        assert (m - {k}).Keys < m.Keys;
      }
      TotalRemove(m - {j}, k);
      TotalRemove(m - {k}, j);
      assert m - {j} - {k} == m - {k} - {j};
    }
  }

  /** Counting one more slot adds one to the sum. */
  lemma TotalIncrement(m: map<string, nat>, x: string)
    ensures Total(m[x := Get(m, x) + 1]) == Total(m) + 1
  {
    var m2 := m[x := Get(m, x) + 1];
    TotalRemove(m2, x);
    if x in m {
      TotalRemove(m, x);
      assert m2 - {x} == m - {x};
    } else {
      assert m2 - {x} == m;
    }
  }

  /**
   * The counter holds exactly the slots that occur, each with the number of times it
   * occurs, and its values add up to the number of slots counted.
   */
  lemma {:induction false} TallyCounts(slots: seq<string>)
    ensures forall x :: x in Tally(slots) <==> x in slots
    ensures forall x :: x in Tally(slots) ==> Tally(slots)[x] == multiset(slots)[x]
    ensures Total(Tally(slots)) == |slots|
  {
    if slots != [] {
      var init := slots[..|slots| - 1];
      var x := slots[|slots| - 1];
      TallyCounts(init);
      assert slots == init + [x];
      TotalIncrement(Tally(init), x);
    }
  }

  /** The counter depends only on which slots were counted how often, not on their order. */
  lemma TallyOrderFree(s: seq<string>, t: seq<string>)
    requires multiset(s) == multiset(t)
    ensures Tally(s) == Tally(t)
  {
    TallyCounts(s);
    TallyCounts(t);
    forall x ensures x in s <==> x in t {
      assert x in s <==> multiset(s)[x] > 0;
      assert x in t <==> multiset(t)[x] > 0;
    }
  }

  lemma {:induction false} AllSlotsAppend(a: seq<Availability>, b: seq<Availability>)
    ensures AllSlots(a + b) == AllSlots(a) + AllSlots(b)
    decreases |b|
  {
    if b == [] {
      assert a + b == a;
    } else {
      var b0 := b[..|b| - 1];
      assert (a + b)[..|a + b| - 1] == a + b0;
      AllSlotsAppend(a, b0);
    }
  }

  /** Taking out the availability at `k` takes its slots out of the whole. */
  lemma AllSlotsRemove(other: seq<Availability>, k: nat)
    requires k < |other|
    ensures multiset(AllSlots(other))
         == multiset(other[k].availableSlots) + multiset(AllSlots(other[..k] + other[k + 1..]))
  {
    var a := other[k];
    assert other == other[..k] + ([a] + other[k + 1..]);
    AllSlotsAppend(other[..k], [a] + other[k + 1..]);
    AllSlotsAppend([a], other[k + 1..]);
    AllSlotsAppend(other[..k], other[k + 1..]);
    assert [a][..0] == [];
    assert AllSlots([a]) == a.availableSlots;
  }

  /** Two permutations of each other stay so once the same element is taken from both. */
  lemma RemoveMatching(init: seq<Availability>, a: Availability, other: seq<Availability>, k: nat)
    requires k < |other| && other[k] == a
    requires multiset(init + [a]) == multiset(other)
    ensures multiset(init) == multiset(other[..k] + other[k + 1..])
  {
    var rest := other[..k] + other[k + 1..];
    assert other == other[..k] + [a] + other[k + 1..];
    assert multiset(other) == multiset(rest) + multiset{a};
    assert multiset(init + [a]) == multiset(init) + multiset{a};
    forall e ensures multiset(init)[e] == multiset(rest)[e] {
      assert (multiset(init) + multiset{a})[e] == (multiset(rest) + multiset{a})[e];
    }
  }

  /** Reordering the availabilities reorders their slots. */
  lemma {:induction false} AllSlotsPermutation(avs: seq<Availability>, other: seq<Availability>)
    requires multiset(avs) == multiset(other)
    ensures multiset(AllSlots(avs)) == multiset(AllSlots(other))
    decreases |avs|
  {
    if avs != [] {
      var init := avs[..|avs| - 1];
      var a := avs[|avs| - 1];
      assert avs == init + [a];
      assert a in multiset(other);
      var k :| 0 <= k < |other| && other[k] == a;
      var rest := other[..k] + other[k + 1..];
      RemoveMatching(init, a, other, k);
      AllSlotsPermutation(init, rest);
      AllSlotsRemove(other, k);
      AllSlotsAppend(init, [a]);
      assert AllSlots([a]) == a.availableSlots by {
        assert [a][..0] == [];
      }
    }
  }

  /** The summary does not depend on the order the availabilities come in. */
  lemma SummaryOrderFree(avs: seq<Availability>, other: seq<Availability>)
    requires multiset(avs) == multiset(other)
    ensures Tally(AllSlots(avs)) == Tally(AllSlots(other))
  {
    AllSlotsPermutation(avs, other);
    TallyOrderFree(AllSlots(avs), AllSlots(other));
  }

  /** The inner loop of `get_event`: one availability's slots counted on top of `summary`. */
  method AddSlots(summary: map<string, nat>, ghost done: seq<string>, slots: seq<string>)
    returns (after: map<string, nat>)
    requires summary == Tally(done)
    ensures after == Tally(done + slots)
  {
    after := summary;
    var j := 0;
    assert done + slots[..0] == done;
    while j < |slots|
      invariant 0 <= j <= |slots|
      invariant after == Tally(done + slots[..j])
    {
      assert (done + slots[..j + 1])[..|done| + j] == done + slots[..j];
      after := after[slots[j] := Get(after, slots[j]) + 1];
      j := j + 1;
    }
    assert slots[..j] == slots;
  }

  /**
   * The counting loop of `get_event`: every slot of every availability adds one to its
   * counter. Each slot that occurs is a key, with its number of occurrences, no other
   * key is present, and the counts add up to the number of slots.
   */
  method CountSlots(avs: seq<Availability>) returns (summary: map<string, nat>)
    ensures summary == Tally(AllSlots(avs))
    ensures forall x :: x in summary <==> x in AllSlots(avs)
    ensures forall x :: x in summary ==> summary[x] == multiset(AllSlots(avs))[x]
    ensures Total(summary) == |AllSlots(avs)|
  {
    summary := map[];
    var i := 0;
    while i < |avs|
      invariant 0 <= i <= |avs|
      invariant summary == Tally(AllSlots(avs[..i]))
    {
      summary := AddSlots(summary, AllSlots(avs[..i]), avs[i].availableSlots);
      assert avs[..i + 1][..i] == avs[..i];
      i := i + 1;
    }
    assert avs[..i] == avs;
    TallyCounts(AllSlots(avs));
  }

  /** The event store: the event row, or `None` when there is none. */
  type EventLookup = string -> Option<map<string, string>>

  /** The availabilities stored for an event. */
  type AvailabilityLookup = string -> seq<Availability>

  /**
   * `get_event`: a missing (or empty) event row answers 404; otherwise the event, its
   * availabilities and their slot summary.
   */
  method GetEvent(eventId: string, events: EventLookup, availabilities: AvailabilityLookup)
    returns (r: Result<EventView, HttpError>)
    ensures r.Err? <==> events(eventId).None? || events(eventId).value == map[]
    ensures r.Err? ==> r.error == HttpError(404, "Event not found")
    ensures r.Ok? ==> && r.value.event == events(eventId).value
                      && r.value.availabilities == availabilities(eventId)
                      && r.value.summary == Tally(AllSlots(availabilities(eventId)))
  {
    var event := events(eventId);
    if event.None? || event.value == map[] {
      return Err(HttpError(404, "Event not found"));
    }
    var avs := availabilities(eventId);
    var summary := CountSlots(avs);
    return Ok(EventView(event.value, avs, summary));
  }
}
