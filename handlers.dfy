/**
 * The Xen node-controller handlers that act on the instance table: run,
 * reboot, attach a volume and detach a volume. Everything the handlers
 * learn from outside is a parameter: whether the record could be
 * allocated, the table's answer to an insertion, whether the start-up
 * thread could be spawned, the clock, what the hypervisor connection and
 * domain lookup yield and the result of the hypervisor call or detach
 * helper, and the device-name conversion (a function of the requested
 * name, so attach and detach convert a name the same way).
 */
module XenHandlers {
  import opened NcTypes
  import opened Volumes
  import opened Registry

  /** Accepts a run request. Rejects an id already in the table (1), a
      failed allocation (2) and a failed insertion (the table's own code),
      leaving the table as it was. Otherwise the new record is BOOTING,
      inserted under its id, stamped with the launch time, given the
      requested shape and unassigned IPs; if the start-up thread cannot be
      spawned the record is taken out again and the answer is 1. */
  method RunInstance(reg: InstanceRegistry, instanceId: string, reservationId: string,
                     params: InstParams, launch: LaunchSpec,
                     privMac: string, pubMac: string, vlan: int,
                     allocOk: bool, addCode: int, now: int, spawnOk: bool)
    returns (rc: Status, outInst: Instance?)
    requires reg.Valid()
    modifies reg
    ensures reg.Valid()
    ensures rc == Ok <==> instanceId !in old(reg.instances) && allocOk && addCode == 0 && spawnOk
    ensures instanceId in old(reg.instances) ==> rc == Code(1)
    ensures instanceId !in old(reg.instances) && !allocOk ==> rc == Code(2)
    ensures instanceId !in old(reg.instances) && allocOk && addCode != 0 ==> rc == Code(addCode)
    ensures instanceId !in old(reg.instances) && allocOk && addCode == 0 && !spawnOk ==> rc == Code(1)
    ensures rc != Ok ==> outInst == null && reg.instances == old(reg.instances)
    ensures rc == Ok ==> outInst != null && fresh(outInst)
                         && reg.instances == old(reg.instances)[instanceId := outInst]
    ensures rc == Ok ==> && outInst.instanceId == instanceId
                         && outInst.reservationId == reservationId
                         && outInst.launch == launch
                         && outInst.state == Booting
                         && outInst.launchTime == now
                         && outInst.params == params
                         && outInst.net == NetConf(privMac, pubMac, vlan, UnassignedIp, UnassignedIp)
                         && outInst.volumes == []
  {
    outInst := null;
    // the IP fields of the caller's network block are not set by the handler
    var net := NetConf(privMac, pubMac, vlan, "", "");

    var found := reg.Find(instanceId);
    if found != null {
      return Code(1), null;
    }
    if !allocOk {
      return Code(2), null;
    }
    var inst := new Instance.Allocate(instanceId, reservationId, params, launch, Pending, net);
    inst.state := Booting;

    var error := reg.Add(inst, addCode);
    if error != 0 {
      return Code(error), null;
    }

    inst.launchTime := now;
    inst.params := InstParams(params.memorySize, params.numberOfCores, params.diskSize);
    inst.net := inst.net.(privateIp := UnassignedIp, publicIp := UnassignedIp);

    if !spawnOk {
      reg.Remove(inst);
      assert reg.instances == old(reg.instances);
      return Code(1), null;
    }
    outInst := inst;
    rc := Ok;
  }

  /** Reboots an instance's domain. An unknown id is NOT_FOUND; a known id
      is 0 whatever the connection, the domain lookup or the reboot itself
      yield. The reboot is issued only when a domain was found; a missing
      domain draws a warning unless the instance is still BOOTING. The
      table and the record are only read. */
  method RebootInstance(reg: InstanceRegistry, instanceId: string, hv: HypervisorView)
    returns (rc: Status, rebootIssued: bool, warned: bool)
    requires reg.Valid()
    ensures rc == (if instanceId in reg.instances then Ok else NotFound)
    ensures rebootIssued <==> instanceId in reg.instances && hv.DomainCall?
    ensures warned <==> instanceId in reg.instances && hv == DomainMissing
                        && reg.instances[instanceId].state != Booting
  {
    rebootIssued, warned := false, false;
    var inst := reg.Find(instanceId);
    if inst == null {
      return NotFound, false, false;
    }
    match hv {
      case Unconnected =>
      case DomainMissing =>
        warned := inst.state != Booting;
      case DomainCall(err) =>
        rebootIssued := true;
    }
    rc := Ok;
  }

  /** Attaches a volume. A nonzero conversion code comes back before any
      lookup; an unknown id is NOT_FOUND; no connection, no domain or a
      failed hypervisor attach is ERROR with the volume list untouched.
      Only after the hypervisor attached the device is one record
      (volume id, remote device, converted name) appended and the recovery
      snapshot written; the snapshot's result is not looked at, and a
      record that cannot be added makes the answer ERROR. */
  method AttachVolume(reg: InstanceRegistry, instanceId: string, volumeId: string,
                      remoteDev: string, localDev: string, convert: string -> DevName,
                      hv: HypervisorView, addOk: bool)
    returns (rc: Status, warned: bool, snapshotSaved: bool)
    requires reg.Valid()
    modifies (if instanceId in reg.instances then {reg.instances[instanceId]} else {})`volumes
    ensures convert(localDev).ret != 0 ==>
              rc == Code(convert(localDev).ret) && !warned && !snapshotSaved
    ensures convert(localDev).ret != 0 && instanceId in reg.instances ==>
              reg.instances[instanceId].volumes == old(reg.instances[instanceId].volumes)
    ensures convert(localDev).ret == 0 && instanceId !in reg.instances ==>
              rc == NotFound && !warned && !snapshotSaved
    ensures convert(localDev).ret == 0 && instanceId in reg.instances ==>
              var inst := reg.instances[instanceId];
              var added := hv == DomainCall(0) && addOk;
              && rc == (if added then Ok else Error)
              && warned == (hv == DomainMissing && inst.state != Booting)
              && snapshotSaved == (hv == DomainCall(0))
              && inst.volumes == if added
                                 then old(inst.volumes) + [Volume(volumeId, remoteDev, convert(localDev).name)]
                                 else old(inst.volumes)
  {
    warned, snapshotSaved := false, false;
    var conv := convert(localDev);
    if conv.ret != 0 {
      return Code(conv.ret), false, false;
    }
    var localDevReal := conv.name;

    var inst := reg.Find(instanceId);
    if inst == null {
      return NotFound, false, false;
    }

    rc := Ok;
    match hv {
      case Unconnected =>
        rc := Error;
      case DomainMissing =>
        warned := inst.state != Booting;
        rc := Error;
      case DomainCall(err) =>
        if err != 0 {
          rc := Error;
        }
    }

    if rc == Ok {
      if addOk {
        inst.volumes := inst.volumes + [Volume(volumeId, remoteDev, localDevReal)];
      }
      snapshotSaved := true;
      if !addOk {
        return Error, warned, snapshotSaved;
      }
    }
  }

  /** Detaches a volume. The guards come in the attach order; with a domain
      found, the detach helper runs and its exit status decides, and only
      a zero status removes the record matching (volume id, remote device,
      converted name). No matching record makes the answer ERROR. The
      `force` flag is accepted and not used. */
  method DetachVolume(reg: InstanceRegistry, instanceId: string, volumeId: string,
                      remoteDev: string, localDev: string, force: bool,
                      convert: string -> DevName, hv: HypervisorView)
    returns (rc: Status, warned: bool, helperRun: bool)
    requires reg.Valid()
    modifies (if instanceId in reg.instances then {reg.instances[instanceId]} else {})`volumes
    ensures convert(localDev).ret != 0 ==>
              rc == Code(convert(localDev).ret) && !warned && !helperRun
    ensures convert(localDev).ret != 0 && instanceId in reg.instances ==>
              reg.instances[instanceId].volumes == old(reg.instances[instanceId].volumes)
    ensures convert(localDev).ret == 0 && instanceId !in reg.instances ==>
              rc == NotFound && !warned && !helperRun
    ensures convert(localDev).ret == 0 && instanceId in reg.instances ==>
              var inst := reg.instances[instanceId];
              var v := Volume(volumeId, remoteDev, convert(localDev).name);
              var removed := hv == DomainCall(0) && v in old(inst.volumes);
              && rc == (if removed then Ok else Error)
              && warned == (hv == DomainMissing && inst.state != Booting)
              && helperRun == hv.DomainCall?
              && inst.volumes == if removed
                                 then FreeVolume(old(inst.volumes), v).value
                                 else old(inst.volumes)
  {
    warned, helperRun := false, false;
    var conv := convert(localDev);
    if conv.ret != 0 {
      return Code(conv.ret), false, false;
    }
    var localDevReal := conv.name;

    var inst := reg.Find(instanceId);
    if inst == null {
      return NotFound, false, false;
    }

    rc := Ok;
    match hv {
      case Unconnected =>
        rc := Error;
      case DomainMissing =>
        warned := inst.state != Booting;
        rc := Error;
      case DomainCall(exitStatus) =>
        helperRun := true;
        if exitStatus != 0 {
          rc := Error;
        }
    }

    if rc == Ok {
      var left := FreeVolume(inst.volumes, Volume(volumeId, remoteDev, localDevReal));
      if left.None? {
        return Error, warned, helperRun;
      }
      inst.volumes := left.value;
    }
  }

  /** Attaching and then detaching the same volume under the same names,
      with both hypervisor steps succeeding, gives the record back exactly
      the volume list it had, when that list held no equal record. */
  method AttachThenDetach(reg: InstanceRegistry, instanceId: string, volumeId: string,
                          remoteDev: string, localDev: string, convert: string -> DevName)
    returns (attachRc: Status, detachRc: Status)
    requires reg.Valid()
    requires convert(localDev).ret == 0 && instanceId in reg.instances
    requires Volume(volumeId, remoteDev, convert(localDev).name) !in reg.instances[instanceId].volumes
    modifies {reg.instances[instanceId]}`volumes
    ensures attachRc == Ok && detachRc == Ok
    ensures reg.instances[instanceId].volumes == old(reg.instances[instanceId].volumes)
  {
    var inst := reg.instances[instanceId];
    var v := Volume(volumeId, remoteDev, convert(localDev).name);
    ghost var before := inst.volumes;
    var warned, saved;
    attachRc, warned, saved := AttachVolume(reg, instanceId, volumeId, remoteDev, localDev,
                                            convert, DomainCall(0), true);
    assert inst.volumes == before + [v];
    var helperRun;
    detachRc, warned, helperRun := DetachVolume(reg, instanceId, volumeId, remoteDev, localDev,
                                                false, convert, DomainCall(0));
    FreeAppendedRestores(before, v);
  }

  /** Running "i-1" on an empty table is accepted with a BOOTING record and
      unassigned IPs; running "i-1" again is rejected with 1. */
  method DuplicateRunRejected(params: InstParams, launch: LaunchSpec, now: int)
    returns (first: Status, second: Status, state: InstanceState, privateIp: string)
    ensures first == Ok && second == Code(1)
    ensures state == Booting && privateIp == "0.0.0.0"
  {
    var reg := new InstanceRegistry();
    var inst, again;
    first, inst := RunInstance(reg, "i-1", "r-1", params, launch, "mac-a", "mac-b", 1,
                               true, 0, now, true);
    state, privateIp := inst.state, inst.net.privateIp;
    second, again := RunInstance(reg, "i-1", "r-1", params, launch, "mac-a", "mac-b", 1,
                                 true, 0, now, true);
  }
}
