/** The debouncer: a value that settles to the latest input only after a
    quiet period.  Time is an explicit virtual clock; the single timer slot
    is `pending`, cleared and re-armed by every call. */
module Debounce {
  import opened ContactTypes

  /** A scheduled settlement of `value`, due at `deadline`. */
  datatype Timer<T> = Timer(value: T, deadline: int)

  class Debouncer<T> {
    const delay: nat
    var now: int
    var settled: T
    var pending: Option<Timer<T>>
    /** The value of the most recent call and when it was made. */
    ghost var latest: T
    ghost var lastCall: int
    /** Every value the debouncer was given, the initial one first. */
    ghost var inputs: seq<T>

    ghost predicate Valid()
      reads this
    {
      && |inputs| > 0 && latest == inputs[|inputs| - 1]
      && settled in inputs
      && lastCall <= now
      && (pending.Some? ==> pending.value == Timer(latest, lastCall + delay) && now <= pending.value.deadline)
      && (pending.None? ==> settled == latest)
    }

    /** First render: the settled value is the initial one at once, and the
        render's own `setValue(value)` arms a timer for it. */
    constructor (initial: T, delay: nat, start: int)
      ensures Valid()
      ensures this.delay == delay && now == start
      ensures settled == initial && pending == Some(Timer(initial, start + delay))
      ensures latest == initial && lastCall == start && inputs == [initial]
    {
      this.delay := delay;
      now := start;
      settled := initial;
      pending := Some(Timer(initial, start + delay));
      latest := initial;
      lastCall := start;
      inputs := [initial];
    }

    /** A call with `v`: cancel whatever timer is pending and schedule `v`. */
    method Call(v: T)
      requires Valid()
      modifies this
      ensures Valid()
      ensures pending == Some(Timer(v, now + delay))
      ensures settled == old(settled) && now == old(now)
      ensures latest == v && lastCall == now && inputs == old(inputs) + [v]
    {
      pending := Some(Timer(v, now + delay));
      latest := v;
      lastCall := now;
      inputs := inputs + [v];
    }

    /** Let `dt` time units pass; the pending timer fires if it falls due. */
    method Advance(dt: nat)
      requires Valid()
      modifies this
      ensures Valid()
      ensures now == old(now) + dt
      ensures latest == old(latest) && lastCall == old(lastCall) && inputs == old(inputs)
      ensures old(pending).Some? && old(pending).value.deadline <= now ==>
        settled == old(pending).value.value && pending == None
      ensures !(old(pending).Some? && old(pending).value.deadline <= now) ==>
        settled == old(settled) && pending == old(pending)
      // less than `delay` after the latest call nothing settles
      ensures now < lastCall + delay ==> settled == old(settled)
      // once `delay` has passed since the latest call, its value is settled
      ensures now >= lastCall + delay ==> settled == latest && pending == None
      // the only value that can settle is the latest one
      ensures settled == old(settled) || settled == latest
    {
      now := now + dt;
      if pending.Some? && pending.value.deadline <= now {
        settled := pending.value.value;
        pending := None;
      }
    }
  }

  /** The quick-typing example: with a delay of 500, "first-update" is
      superseded 300 units in, nothing has settled 200 units after the
      second update, and "second-update" has 300 units later. */
  method QuickTypingScenario() returns (first: string, midway: string, last: string)
    ensures first == "initial" && midway == "initial" && last == "second-update"
  {
    var d := new Debouncer("initial", 500, 0);
    first := d.settled;
    d.Call("first-update");
    d.Advance(300);
    d.Call("second-update");
    d.Advance(200);
    midway := d.settled;
    d.Advance(300);
    last := d.settled;
  }
}
