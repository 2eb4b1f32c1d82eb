/**
 * The node controller's table of instances: records keyed by instance id,
 * each record an object whose state, parameters, network addresses, launch
 * time and volume list the handlers update in place. The table offers the
 * three operations the handlers use: find, add and remove.
 */
module Registry {
  import opened NcTypes

  /** One instance record. Its id and launch metadata are fixed when it is
      allocated; the handlers update the other fields in place. */
  class Instance {
    const instanceId: string
    const reservationId: string
    const launch: LaunchSpec
    var state: InstanceState
    var params: InstParams
    var net: NetConf
    var launchTime: int
    var volumes: seq<Volume>

    /** A freshly allocated record in the given state with no volumes. */
    constructor Allocate(instanceId: string, reservationId: string, params: InstParams,
                         launch: LaunchSpec, state: InstanceState, net: NetConf)
      ensures this.instanceId == instanceId && this.reservationId == reservationId
      ensures this.launch == launch && this.state == state
      ensures this.params == params && this.net == net
      ensures volumes == []
    {
      this.instanceId := instanceId;
      this.reservationId := reservationId;
      this.launch := launch;
      this.state := state;
      this.params := params;
      this.net := net;
      launchTime := 0;
      volumes := [];
    }
  }

  /** The instance table. Every record sits under its own id, so one id
      names at most one record and one record sits under one id only. */
  class InstanceRegistry {
    var instances: map<string, Instance>

    ghost predicate Valid()
      reads this
    {
      forall id :: id in instances ==> instances[id].instanceId == id
    }

    constructor ()
      ensures Valid() && instances == map[]
    {
      instances := map[];
    }

    /** Looks an id up: the record stored under it, or null. */
    method Find(id: string) returns (inst: Instance?)
      requires Valid()
      ensures inst != null <==> id in instances
      ensures inst != null ==> inst == instances[id] && inst.instanceId == id
    {
      inst := if id in instances then instances[id] else null;
    }

    /** Inserts a record. `code` is the table's own answer (0 for success);
        the record is inserted exactly when it is 0, and the code is passed on. */
    method Add(inst: Instance, code: int) returns (rc: int)
      requires Valid()
      modifies this
      ensures Valid()
      ensures rc == code
      ensures instances == if code == 0 then old(instances)[inst.instanceId := inst]
                           else old(instances)
    {
      if code == 0 {
        instances := instances[inst.instanceId := inst];
      }
      rc := code;
    }

    /** Removes this very record; a record that is not in the table leaves
        the table as it is. */
    method Remove(inst: Instance)
      requires Valid()
      modifies this
      ensures Valid()
      ensures instances == if inst.instanceId in old(instances) && old(instances)[inst.instanceId] == inst
                           then old(instances) - {inst.instanceId}
                           else old(instances)
    {
      if inst.instanceId in instances && instances[inst.instanceId] == inst {
        instances := instances - {inst.instanceId};
      }
    }
  }
}
