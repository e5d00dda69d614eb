/** When device checks are submitted: `process_due`, and the run slots of `_begin_run` and `_end_run`, in
    linkmoth_devices.py. */
module DeviceSchedule {
  import opened Options

  const MAX_DEVICES := 50
  const MAX_CONCURRENT_CHECKS := 4

  datatype Device = Device(id: nat, enabled: bool, interval: nat, nextRun: Option<int>)

  predicate Scheduled(d: Device) {
    d.enabled && d.interval > 0 && d.nextRun.Some?
  }

  /** A next run further away than the interval can only come from a clock that was stepped back. */
  function Rebase(d: Device, now: int): Device {
    if Scheduled(d) && d.nextRun.value > now + d.interval then d.(nextRun := Some(now + d.interval)) else d
  }

  predicate IsDue(d: Device, now: int) {
    Scheduled(d) && d.nextRun.value <= now
  }

  /** One device in one call of `process_due`. */
  function Process(d: Device, now: int): Device {
    var r := Rebase(d, now);
    if IsDue(r, now) then r.(nextRun := Some(now + r.interval)) else r
  }

  class Scheduler {
    var devices: seq<Device>

    /** `process_due`. The table never holds more devices than one call may submit, so its limit never bites
        and the order of the due devices does not matter. */
    method ProcessDue(now: int) returns (submitted: set<nat>)
      requires |devices| <= MAX_DEVICES
      modifies this
      ensures |devices| == |old(devices)|
      ensures forall i :: 0 <= i < |devices| ==> devices[i] == Process(old(devices[i]), now)
      ensures forall id :: id in submitted <==>
        exists i :: 0 <= i < |devices| && old(devices[i]).id == id && IsDue(old(devices[i]), now)
    {
      submitted := {};
      for i := 0 to |devices|
        invariant |devices| == |old(devices)|
        invariant forall k :: 0 <= k < i ==> devices[k] == Rebase(old(devices[k]), now)
        invariant forall k :: i <= k < |devices| ==> devices[k] == old(devices[k])
      {
        if Scheduled(devices[i]) && devices[i].nextRun.value > now + devices[i].interval {
          devices := devices[i := devices[i].(nextRun := Some(now + devices[i].interval))];
        }
      }
      for i := 0 to |devices|
        invariant |devices| == |old(devices)|
        invariant forall k :: 0 <= k < i ==> devices[k] == Process(old(devices[k]), now)
        invariant forall k :: i <= k < |devices| ==> devices[k] == Rebase(old(devices[k]), now)
        invariant forall id :: id in submitted <==>
          exists k :: 0 <= k < i && old(devices[k]).id == id && IsDue(old(devices[k]), now)
      {
        if IsDue(devices[i], now) {
          submitted := submitted + {devices[i].id};
          devices := devices[i := devices[i].(nextRun := Some(now + devices[i].interval))];
        }
      }
    }
  }

  /** What one call does to one device: a check is submitted, and the next one set an interval from now, if the device
      is enabled, has an interval and is due; a next run that is further away than the interval is pulled in; nothing
      else changes. */
  lemma ProcessTells(d: Device, now: int)
    ensures var r, takesPart := Process(d, now), d.enabled && d.interval > 0 && d.nextRun.Some?;
      && r == d.(nextRun := r.nextRun)
      && (IsDue(d, now) <==> takesPart && d.nextRun.value <= now)
      && (!takesPart ==> r.nextRun == d.nextRun)
      && (takesPart && now < d.nextRun.value <= now + d.interval ==> r.nextRun == d.nextRun)
      && (takesPart && !(now < d.nextRun.value <= now + d.interval) ==> r.nextRun == Some(now + d.interval))
  {
  }

  /** Whatever the clock did before, the call leaves every scheduled device due within its interval from now,
      and not at once: monitoring neither stalls nor submits a check twice. */
  lemma NextRunIsNear(d: Device, now: int)
    requires Scheduled(d)
    ensures now < Process(d, now).nextRun.value <= now + d.interval
  {
  }

  // ----- a device over many calls -----

  function ProcessAll(d: Device, times: seq<int>): Device {
    if times == [] then d else Process(ProcessAll(d, times[..|times| - 1]), times[|times| - 1])
  }

  /** Call `k` submits a check of the device. */
  predicate SubmittedAt(d: Device, times: seq<int>, k: nat)
    requires k < |times|
  {
    IsDue(ProcessAll(d, times[..k]), times[k])
  }

  predicate NeverBack(times: seq<int>) {
    forall i, j :: 0 <= i < j < |times| ==> times[i] <= times[j]
  }

  lemma {:induction false} OthersStay(d: Device, times: seq<int>)
    ensures var r := ProcessAll(d, times);
      r.id == d.id && r.enabled == d.enabled && r.interval == d.interval && r.nextRun.Some? == d.nextRun.Some?
  {
    if times != [] {
      OthersStay(d, times[..|times| - 1]);
    }
  }

  /** After a submission at call `k`, and until the next one, the next run stays where it was put. */
  lemma {:induction false} NextRunStays(d: Device, times: seq<int>, k: nat, n: nat)
    requires Scheduled(d) && NeverBack(times) && k < n <= |times| && SubmittedAt(d, times, k)
    requires forall j :: k < j < n ==> !SubmittedAt(d, times, j)
    ensures ProcessAll(d, times[..n]).nextRun == Some(times[k] + d.interval)
  {
    OthersStay(d, times[..n - 1]);
    assert times[..n][..n - 1] == times[..n - 1];
    if k < n - 1 {
      NextRunStays(d, times, k, n - 1);
      assert !SubmittedAt(d, times, n - 1);
    }
  }

  /** While the clock never steps back, two submissions of a device are at least its interval apart. When the checks
      themselves begin is up to the workers. */
  lemma SubmissionsAreSpaced(d: Device, times: seq<int>, k: nat, n: nat)
    requires Scheduled(d) && NeverBack(times) && k < n < |times|
    requires SubmittedAt(d, times, k) && SubmittedAt(d, times, n)
    requires forall j :: k < j < n ==> !SubmittedAt(d, times, j)
    ensures times[n] >= times[k] + d.interval
  {
    NextRunStays(d, times, k, n);
  }

  // ----- run slots -----

  class RunSlots {
    var running: set<nat>
    var free: nat

    ghost predicate Valid()
      reads this
    {
      |running| + free == MAX_CONCURRENT_CHECKS
    }

    constructor ()
      ensures Valid() && running == {}
    {
      running, free := {}, MAX_CONCURRENT_CHECKS;
    }

    /** `_begin_run`: false stands for the DeviceBusy it raises. */
    method Begin(id: nat) returns (ok: bool)
      requires Valid()
      modifies this
      ensures Valid() && |running| <= 4
      ensures ok <==> id !in old(running) && |old(running)| < 4
      ensures running == if ok then old(running) + {id} else old(running)
    {
      if id in running || free == 0 {
        return false;
      }
      free := free - 1;
      running := running + {id};
      return true;
    }

    /** `_end_run`, called once for every run that began. */
    method End(id: nat)
      requires Valid() && id in running
      modifies this
      ensures Valid() && running == old(running) - {id}
    {
      running := running - {id};
      free := free + 1;
    }
  }
}
