// The paired-device list of host/src/pairing.rs: the list operations, and the
// file they are saved to.
module Devices {
  import opened Wrappers

  datatype PairedDevice = PairedDevice(fingerprint: string, name: string, pairedAt: nat, lastSeen: nat)

  predicate Contains(devices: seq<PairedDevice>, fingerprint: string) {
    exists i :: 0 <= i < |devices| && devices[i].fingerprint == fingerprint
  }

  // No fingerprint is listed twice.
  ghost predicate Unique(devices: seq<PairedDevice>) {
    forall i, j :: 0 <= i < j < |devices| ==> devices[i].fingerprint != devices[j].fingerprint
  }

  function Added(devices: seq<PairedDevice>, fingerprint: string, name: string, now: nat): (r: seq<PairedDevice>)
    ensures forall g :: Contains(r, g) <==> Contains(devices, g) || g == fingerprint
    ensures Unique(devices) ==> Unique(r)
  {
    if Contains(devices, fingerprint) then devices
    else
      var r := devices + [PairedDevice(fingerprint, name, now, now)];
      assert r[|devices|].fingerprint == fingerprint;
      assert forall i :: 0 <= i < |devices| ==> r[i] == devices[i];
      r
  }

  // `retain`: every entry of the device goes, the others keep their order.
  function Without(devices: seq<PairedDevice>, fingerprint: string): (r: seq<PairedDevice>)
    ensures |r| <= |devices|
    ensures forall g :: Contains(r, g) <==> Contains(devices, g) && g != fingerprint
    ensures |r| == |devices| <==> !Contains(devices, fingerprint)
    ensures |r| == |devices| ==> r == devices
  {
    if devices == [] then []
    else
      var kept := Without(devices[1..], fingerprint);
      assert forall g :: Contains(devices, g) <==> Contains(devices[1..], g) || g == devices[0].fingerprint by {
        ContainsHead(devices);
      }
      if devices[0].fingerprint == fingerprint then kept
      else
        var r := [devices[0]] + kept;
        assert forall g :: Contains(r, g) <==> Contains(kept, g) || g == devices[0].fingerprint by {
          ContainsHead(r);
          assert r[1..] == kept;
        }
        r
  }

  lemma ContainsHead(devices: seq<PairedDevice>)
    requires devices != []
    ensures forall g :: Contains(devices, g) <==> Contains(devices[1..], g) || g == devices[0].fingerprint
  {
    forall g
      ensures Contains(devices, g) <==> Contains(devices[1..], g) || g == devices[0].fingerprint
    {
      if Contains(devices, g) {
        var i :| 0 <= i < |devices| && devices[i].fingerprint == g;
        assert i > 0 ==> devices[1..][i - 1].fingerprint == g;
      }
    }
  }

  // Position of the first entry of a device, |devices| when there is none.
  function Find(devices: seq<PairedDevice>, fingerprint: string): (i: nat)
    ensures i <= |devices|
    ensures i < |devices| <==> Contains(devices, fingerprint)
    ensures i < |devices| ==> devices[i].fingerprint == fingerprint
    ensures forall j :: 0 <= j < i ==> devices[j].fingerprint != fingerprint
  {
    if devices == [] then 0
    else if devices[0].fingerprint == fingerprint then 0
    else
      var i := Find(devices[1..], fingerprint);
      assert forall j :: 0 < j < |devices| ==> devices[j] == devices[1..][j - 1];
      i + 1
  }

  // In a list without duplicates, exactly the one entry of the device goes.
  lemma {:induction false} WithoutUnique(devices: seq<PairedDevice>, fingerprint: string)
    requires Unique(devices)
    ensures Unique(Without(devices, fingerprint))
    ensures
      var i := Find(devices, fingerprint);
      Without(devices, fingerprint) == if i < |devices| then devices[..i] + devices[i + 1..] else devices
  {
    if devices == [] {
    } else {
      var kept := Without(devices[1..], fingerprint);
      assert !Contains(devices[1..], devices[0].fingerprint);
      WithoutUnique(devices[1..], fingerprint);
      HeadKeepsUnique(devices[0], kept);
      if Contains(devices[1..], fingerprint) {
        DeletedBehind(devices, Find(devices[1..], fingerprint));
      } else {
        NothingDeleted(devices, fingerprint);
      }
    }
  }

  lemma HeadKeepsUnique(head: PairedDevice, kept: seq<PairedDevice>)
    requires Unique(kept) && !Contains(kept, head.fingerprint)
    ensures Unique([head] + kept)
  {
  }

  // Deleting behind the head of a list.
  lemma DeletedBehind(devices: seq<PairedDevice>, i: nat)
    requires i + 1 < |devices|
    ensures [devices[0]] + (devices[1..][..i] + devices[1..][i + 1..]) == devices[..i + 1] + devices[i + 2..]
  {
  }

  lemma NothingDeleted(devices: seq<PairedDevice>, fingerprint: string)
    requires devices != [] && !Contains(devices[1..], fingerprint)
    ensures Without(devices, fingerprint) == if devices[0].fingerprint == fingerprint then devices[1..] else devices
  {
    assert devices == [devices[0]] + devices[1..];
  }

  function Renamed(devices: seq<PairedDevice>, fingerprint: string, name: string): (r: seq<PairedDevice>)
    ensures |r| == |devices|
    ensures forall i :: 0 <= i < |r| ==> r[i].fingerprint == devices[i].fingerprint
    ensures forall g :: Contains(r, g) <==> Contains(devices, g)
  {
    var i := Find(devices, fingerprint);
    var r := if i == |devices| then devices else devices[i := devices[i].(name := name)];
    assert forall j :: 0 <= j < |r| ==> r[j].fingerprint == devices[j].fingerprint;
    r
  }

  function Touched(devices: seq<PairedDevice>, fingerprint: string, now: nat): (r: seq<PairedDevice>)
    ensures |r| == |devices|
    ensures forall i :: 0 <= i < |r| ==> r[i].fingerprint == devices[i].fingerprint
    ensures forall g :: Contains(r, g) <==> Contains(devices, g)
  {
    var i := Find(devices, fingerprint);
    var r := if i == |devices| then devices else devices[i := devices[i].(lastSeen := now)];
    assert forall j :: 0 <= j < |r| ==> r[j].fingerprint == devices[j].fingerprint;
    r
  }

  // -------------------------------------------------------------- the file

  // What a file holds: a complete list, or the torn text of a write that
  // never finished, which does not parse.
  datatype Contents = Complete(devices: seq<PairedDevice>) | Torn

  // paired.json and paired.json.tmp.
  datatype Files = Files(list: Option<Contents>, tmp: Option<Contents>)

  // What a restarted host would start from.
  function Load(files: Files): Result<seq<PairedDevice>> {
    match files.list
    case None => Ok([])
    case Some(Complete(devices)) => Ok(devices)
    case Some(Torn) => Err
  }

  // Which step of a save the file system refuses. WriteFails leaves whatever
  // part of the text was written.
  datatype Fault = NoFault | DirectoryFails | WriteFails | RenameFails

  datatype Operation =
    | Add(fingerprint: string, name: string, now: nat)
    | Remove(fingerprint: string)
    | Rename(fingerprint: string, name: string)
    | Touch(fingerprint: string, now: nat)

  // The list in memory after an operation, whatever its save did.
  function Apply(devices: seq<PairedDevice>, op: Operation): (r: seq<PairedDevice>)
    ensures Unique(devices) ==> Unique(r)
  {
    match op
    case Add(fp, name, now) => Added(devices, fp, name, now)
    case Remove(fp) =>
      assert Unique(devices) ==> Unique(Without(devices, fp)) by {
        if Unique(devices) {
          WithoutUnique(devices, fp);
        }
      }
      Without(devices, fp)
    case Rename(fp, name) => Renamed(devices, fp, name)
    case Touch(fp, now) => Touched(devices, fp, now)
  }

  // Whether the operation reaches `save` at all.
  predicate Saves(devices: seq<PairedDevice>, op: Operation) {
    match op
    case Add(fp, _, _) => !Contains(devices, fp)
    case _ => Contains(devices, op.fingerprint)
  }

  // The files after a save of `devices` that stops where `fault` says.
  function Saved(files: Files, devices: seq<PairedDevice>, fault: Fault): Files {
    match fault
    case NoFault => Files(Some(Complete(devices)), None)
    case DirectoryFails => files
    case WriteFails => files.(tmp := Some(Torn))
    case RenameFails => files.(tmp := Some(Complete(devices)))
  }

  // The host's list and its files, as values.
  datatype Store = Store(devices: seq<PairedDevice>, files: Files)

  ghost predicate InStep(s: Store) { Load(s.files) == Ok(s.devices) }

  /** The approved viewers in memory and on disk. `seen` collects every state the
      two files pass through, so a crash can be placed after any of them. */
  class PairedDevices {
    var devices: seq<PairedDevice>
    var files: Files
    ghost var seen: seq<Files>

    ghost function State(): Store
      reads this
    {
      Store(devices, files)
    }

    // Whenever the process dies during a call that found `before` on disk, a
    // reload gives what was there before or the list now in memory.
    ghost predicate CrashSafe(before: Files, from: nat)
      reads this
    {
      forall k :: from <= k < |seen| ==> Load(seen[k]) == Load(before) || Load(seen[k]) == Ok(devices)
    }

    constructor (files: Files)
      requires Load(files).Ok?
      ensures State() == Store(Load(files).value, files) && seen == [files] && InStep(State())
    {
      this.devices := Load(files).value;
      this.files := files;
      seen := [files];
    }

    method Save(fault: Fault) returns (saved: bool)
      modifies this`files, this`seen
      ensures saved <==> fault == NoFault
      ensures files == Saved(old(files), devices, fault)
      ensures old(seen) <= seen && |old(seen)| < |seen| && seen[|seen| - 1] == files
      ensures CrashSafe(old(files), |old(seen)|)
    {
      if fault == DirectoryFails {
        seen := seen + [files];
        return false;
      }
      // Opening the temporary file truncates it before anything is written.
      files := files.(tmp := Some(Torn));
      seen := seen + [files];
      if fault == WriteFails {
        return false;
      }
      files := files.(tmp := Some(Complete(devices)));
      seen := seen + [files];
      if fault == RenameFails {
        return false;
      }
      files := Files(files.tmp, None);
      seen := seen + [files];
      return true;
    }

    // Ok reports success; the flag is the Ok(bool) of remove and rename.
    method Do(op: Operation, fault: Fault) returns (result: Result<bool>)
      modifies this
      ensures State() == StoreStep(old(State()), op, fault)
      ensures result.Ok? <==> !Saves(old(devices), op) || fault == NoFault
      ensures result.Ok? && (op.Remove? || op.Rename?) ==> result.value == Contains(old(devices), op.fingerprint)
      ensures result.Ok? && Saves(old(devices), op) ==> InStep(State())
      ensures result.Err? ==> files.list == old(files.list)
      ensures old(seen) <= seen && CrashSafe(old(files), |old(seen)|)
    {
      match op
      case Add(fp, name, now) =>
        if Contains(devices, fp) {
          return Ok(true);
        }
        devices := devices + [PairedDevice(fp, name, now, now)];
        var saved := Save(fault);
        return if saved then Ok(true) else Err;
      case Remove(fp) =>
        var before := |devices|;
        devices := Without(devices, fp);
        if |devices| == before {
          return Ok(false);
        }
        var saved := Save(fault);
        return if saved then Ok(true) else Err;
      case Rename(fp, name) =>
        var i := Find(devices, fp);
        if i == |devices| {
          return Ok(false);
        }
        devices := devices[i := devices[i].(name := name)];
        var saved := Save(fault);
        return if saved then Ok(true) else Err;
      case Touch(fp, now) =>
        var i := Find(devices, fp);
        if i < |devices| {
          devices := devices[i := devices[i].(lastSeen := now)];
          var saved := Save(fault);
          if !saved {
            return Err;
          }
        }
        return Ok(true);
    }
  }

  // `load`: a file that cannot be parsed is an error.
  method LoadDevices(files: Files) returns (r: Result<PairedDevices>)
    ensures r.Ok? <==> Load(files).Ok?
    ensures r.Ok? ==> fresh(r.value) && r.value.State() == Store(Load(files).value, files) && InStep(r.value.State())
  {
    if Load(files).Err? {
      return Err;
    }
    var devices := new PairedDevices(files);
    return Ok(devices);
  }

  // ---------------------------------------------------- whole runs of calls

  // The same operations as values, so that runs can be reasoned about.
  function StoreStep(s: Store, op: Operation, fault: Fault): (r: Store) {
    var devices := Apply(s.devices, op);
    Store(devices, if Saves(s.devices, op) then Saved(s.files, devices, fault) else s.files)
  }

  // The states of a run of operations, with whatever faults.
  ghost predicate IsRun(run: seq<Store>, ops: seq<(Operation, Fault)>) {
    && |run| == |ops| + 1
    && forall i {:trigger ops[i]} :: 0 <= i < |ops| ==> run[i + 1] == StoreStep(run[i], ops[i].0, ops[i].1)
  }

  // The i-th operation wrote the file.
  ghost predicate Wrote(run: seq<Store>, ops: seq<(Operation, Fault)>, i: nat)
    requires |run| == |ops| + 1 && i < |ops|
  {
    Saves(run[i].devices, ops[i].0) && ops[i].1 == NoFault
  }

  // An operation puts the new list on disk, or leaves the file alone.
  lemma StepLoads(s: Store, op: Operation, fault: Fault)
    ensures
      var n := StoreStep(s, op, fault);
      Load(n.files) == if Saves(s.devices, op) && fault == NoFault then Ok(n.devices) else Load(s.files)
  {
  }

  // In any run, with saves failing anywhere, the file holds, complete, the
  // list the host had in memory right after the last operation that wrote it.
  lemma {:induction false} ReloadGivesTheLastWrittenList(run: seq<Store>, ops: seq<(Operation, Fault)>, n: nat)
    returns (k: nat)
    requires IsRun(run, ops) && InStep(run[0]) && n <= |ops|
    ensures k <= n && Load(run[n].files) == Ok(run[k].devices)
    ensures k > 0 ==> Wrote(run, ops, k - 1)
    ensures forall i :: k <= i < n ==> !Wrote(run, ops, i)
  {
    k := 0;
    if n == 0 {
    } else {
      k := ReloadGivesTheLastWrittenList(run, ops, n - 1);
      StepLoads(run[n - 1], ops[n - 1].0, ops[n - 1].1);
      if Wrote(run, ops, n - 1) {
        k := n;
      }
    }
  }

  lemma ApplyKeepsUnique(devices: seq<PairedDevice>, op: Operation)
    requires Unique(devices)
    ensures Unique(Apply(devices, op))
  {
  }

  lemma {:induction false} RunKeepsUnique(run: seq<Store>, ops: seq<(Operation, Fault)>, n: nat)
    requires IsRun(run, ops) && InStep(run[0]) && Unique(run[0].devices) && n <= |ops|
    ensures Unique(run[n].devices)
    ensures Load(run[n].files).Ok? && Unique(Load(run[n].files).value)
  {
    if n == 0 {
    } else {
      RunKeepsUnique(run, ops, n - 1);
      StepLoads(run[n - 1], ops[n - 1].0, ops[n - 1].1);
      ApplyKeepsUnique(run[n - 1].devices, ops[n - 1].0);
    }
  }

  // When memory and disk agree, an operation leaves them agreeing exactly
  // when it did not have to save, its save worked, or it changed nothing.
  lemma StoreStepKeepsInStep(s: Store, op: Operation, fault: Fault)
    requires InStep(s)
    ensures InStep(StoreStep(s, op, fault)) <==>
      !Saves(s.devices, op) || fault == NoFault || Apply(s.devices, op) == s.devices
  {
    if !Saves(s.devices, op) {
      NothingToSaveChangesNothing(s.devices, op);
    }
  }

  lemma NothingToSaveChangesNothing(devices: seq<PairedDevice>, op: Operation)
    requires !Saves(devices, op)
    ensures Apply(devices, op) == devices
  {
  }

  // A successful answer does not mean memory equals disk: the second try of
  // a removal that failed to save answers "not paired", and after a restart
  // the device is paired again.
  lemma FailedRemovalComesBack(fp: string)
    ensures
      var s := Store([PairedDevice(fp, "phone", 0, 0)], Files(Some(Complete([PairedDevice(fp, "phone", 0, 0)])), None));
      var r := StoreStep(StoreStep(s, Remove(fp), DirectoryFails), Remove(fp), NoFault);
      InStep(s) && !Contains(r.devices, fp) && Load(r.files).Ok? && Contains(Load(r.files).value, fp)
  {
    var s := Store([PairedDevice(fp, "phone", 0, 0)], Files(Some(Complete([PairedDevice(fp, "phone", 0, 0)])), None));
    var failed := StoreStep(s, Remove(fp), DirectoryFails);
    var r := StoreStep(failed, Remove(fp), NoFault);
    assert s.devices[0].fingerprint == fp;
    assert failed.devices == [] && failed.files == s.files;
    assert Load(r.files).value[0].fingerprint == fp;
  }
}
