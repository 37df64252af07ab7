/**
 * Roles, devices, pairing codes and the admin frames that grant: `handleAdmin`,
 * `assertMayGrantRole`, `setDeviceRole`, `upsertRole`, `deleteRole`, `createPairingCode` and
 * redemption in packages/core/src/server.ts, over the records of packages/core/src/store.ts.
 *
 * A ghost party of devices sends all the admin frames; whoever redeems a code the party
 * minted joins it. `Contained` says that none of them holds, in the store or on a live
 * session, a privileged capability outside a ceiling fixed at the start.
 */
module Access {
  import opened Roles
  import opened Texts

  datatype Device = Device(role: Name, active: bool, key: string)

  /** A live session carries its own copies of the device's role name and of the role. */
  datatype Session = Session(device: string, roleName: Name, role: Role)

  datatype Code = Code(role: Name, usesLeft: nat, expiresAt: int)

  datatype Reply = Ok | NotReady | Forbidden | Failed

  // ---- the invariant, on values ------------------------------------------------

  /** A session's copies are the store's: what is checked is what is stored. */
  ghost predicate UpToDate(roles: map<Name, Role>, devices: map<string, Device>, s: Session) {
    && s.device in devices && devices[s.device].active && devices[s.device].role == s.roleName
    && s.roleName in roles && roles[s.roleName] == s.role && s.role.name == s.roleName
  }

  ghost predicate AllUpToDate(roles: map<Name, Role>, devices: map<string, Device>, sessions: map<nat, Session>) {
    forall id :: id in sessions ==> UpToDate(roles, devices, sessions[id])
  }

  ghost predicate RoleWithin(roles: map<Name, Role>, name: Name, ceiling: set<Capability>) {
    name in roles ==> Within(roles[name].capabilities, ceiling)
  }

  ghost predicate DevicesWithin(roles: map<Name, Role>, devices: map<string, Device>, party: set<string>,
                                ceiling: set<Capability>)
  {
    forall d :: d in party && d in devices ==> RoleWithin(roles, devices[d].role, ceiling)
  }

  ghost predicate SessionsWithin(sessions: map<nat, Session>, party: set<string>, ceiling: set<Capability>) {
    forall id :: id in sessions && sessions[id].device in party ==> Within(sessions[id].role.capabilities, ceiling)
  }

  ghost predicate CodesWithin(roles: map<Name, Role>, codes: map<string, Code>, minted: set<string>,
                              ceiling: set<Capability>)
  {
    forall h :: h in minted && h in codes ==> RoleWithin(roles, codes[h].role, ceiling)
  }

  /** A device of the party has it, by its record or on a live session. */
  ghost predicate Held(roles: map<Name, Role>, devices: map<string, Device>, sessions: map<nat, Session>,
                       party: set<string>, cap: Capability)
  {
    || (exists d :: d in party && d in devices && devices[d].role in roles
          && cap in roles[devices[d].role].capabilities)
    || (exists id :: id in sessions && sessions[id].device in party && cap in sessions[id].role.capabilities)
  }

  // ---- what the two changes of roles do, on values ---------------------------------

  function Reassigned(devices: map<string, Device>, device: string, name: Name): map<string, Device> {
    if device in devices then devices[device := devices[device].(role := name)] else devices
  }

  function Refreshed(sessions: map<nat, Session>, device: string, role: Role): map<nat, Session> {
    map id | id in sessions :: if sessions[id].device == device then Session(device, role.name, role) else sessions[id]
  }

  function Rewritten(sessions: map<nat, Session>, next: Role): map<nat, Session> {
    map id | id in sessions :: if sessions[id].roleName == next.name then sessions[id].(role := next) else sessions[id]
  }

  /** The active devices that have the role. */
  function Holders(devices: map<string, Device>, name: Name): (holders: set<string>)
    ensures forall d :: d in holders <==> d in devices && devices[d].active && devices[d].role == name
  {
    set d | d in devices && devices[d].active && devices[d].role == name
  }

  lemma OneMoreHolder(devices: map<string, Device>, device: string, enrolled: Device)
    requires device !in devices && enrolled.active
    ensures |Holders(devices[device := enrolled], enrolled.role)| == |Holders(devices, enrolled.role)| + 1
  {
    assert Holders(devices[device := enrolled], enrolled.role) == Holders(devices, enrolled.role) + {device};
  }

  lemma ReassignStaysWithin(roles: map<Name, Role>, devices: map<string, Device>, sessions: map<nat, Session>,
                            party: set<string>, ceiling: set<Capability>, device: string, name: Name)
    requires DevicesWithin(roles, devices, party, ceiling) && SessionsWithin(sessions, party, ceiling)
    requires name in roles && Within(roles[name].capabilities, ceiling)
    ensures DevicesWithin(roles, Reassigned(devices, device, name), party, ceiling)
    ensures SessionsWithin(Refreshed(sessions, device, roles[name]), party, ceiling)
  {
    forall d | d in party && d in devices
      ensures RoleWithin(roles, Reassigned(devices, device, name)[d].role, ceiling)
    {
      assert RoleWithin(roles, devices[d].role, ceiling);
    }
  }

  lemma UpsertStaysWithin(roles: map<Name, Role>, devices: map<string, Device>, sessions: map<nat, Session>,
                          codes: map<string, Code>, party: set<string>, minted: set<string>,
                          ceiling: set<Capability>, next: Role)
    requires DevicesWithin(roles, devices, party, ceiling) && SessionsWithin(sessions, party, ceiling)
    requires CodesWithin(roles, codes, minted, ceiling) && Within(next.capabilities, ceiling)
    ensures DevicesWithin(roles[next.name := next], devices, party, ceiling)
    ensures SessionsWithin(Rewritten(sessions, next), party, ceiling)
    ensures CodesWithin(roles[next.name := next], codes, minted, ceiling)
  {
    var after := roles[next.name := next];
    forall d | d in party && d in devices
      ensures RoleWithin(after, devices[d].role, ceiling)
    {
      assert RoleWithin(roles, devices[d].role, ceiling);
    }
    forall h | h in minted && h in codes
      ensures RoleWithin(after, codes[h].role, ceiling)
    {
      assert RoleWithin(roles, codes[h].role, ceiling);
    }
  }

  class Hub {
    var roles: map<Name, Role>
    var devices: map<string, Device>
    var sessions: map<nat, Session>
    var codes: map<string, Code>

    /** The devices that send admin frames, the codes they minted, and what they held at the start. */
    ghost var party: set<string>
    ghost var minted: set<string>
    ghost const ceiling: set<Capability>

    ghost predicate Valid()
      reads this
    {
      && AllUpToDate(roles, devices, sessions)
      && (forall name :: name in roles ==> roles[name].name == name)
    }

    ghost predicate Contained()
      reads this
    {
      && Admin !in ceiling
      && DevicesWithin(roles, devices, party, ceiling)
      && SessionsWithin(sessions, party, ceiling)
      && CodesWithin(roles, codes, minted, ceiling)
    }

    /** A frame handled from a live session of the party. */
    ghost predicate Acts(id: nat)
      reads this
    {
      id in sessions && sessions[id].device in party
    }

    /** The start: any state of a hub in which no device of the party is an admin. */
    constructor (roles: map<Name, Role>, devices: map<string, Device>, sessions: map<nat, Session>,
                 codes: map<string, Code>, ghost party: set<string>)
      requires AllUpToDate(roles, devices, sessions) && forall name :: name in roles ==> roles[name].name == name
      requires !Held(roles, devices, sessions, party, Admin)
      ensures Valid() && Contained() && this.party == party && minted == {}
      ensures this.roles == roles && this.devices == devices && this.sessions == sessions && this.codes == codes
      ensures forall cap :: cap in ceiling <==> Held(roles, devices, sessions, party, cap)
    {
      this.roles := roles;
      this.devices := devices;
      this.sessions := sessions;
      this.codes := codes;
      this.party := party;
      minted := {};
      ceiling := set cap: Capability | Held(roles, devices, sessions, party, cap);
    }

    // ---- what the frames call ------------------------------------------------------

    /** `assertMayGrantRole`: an unknown role is left for the operation itself to report. */
    predicate MayGrantRole(actor: Role, name: Name)
      reads this
    {
      name in roles ==> Escalating(actor.capabilities, roles[name].capabilities) == []
    }

    /** `setDeviceRole`: the record, and every live session of the device. */
    method SetDeviceRole(device: string, name: Name) returns (reply: Reply)
      requires Valid()
      modifies `devices, `sessions
      ensures Valid()
      ensures reply == if name in roles then Ok else Failed
      ensures reply != Failed ==>
        devices == Reassigned(old(devices), device, name) && sessions == Refreshed(old(sessions), device, roles[name])
      ensures reply == Failed ==> devices == old(devices) && sessions == old(sessions)
    {
      if name !in roles { return Failed; }
      if device in devices {
        devices := devices[device := devices[device].(role := name)];
      }
      sessions := Refreshed(sessions, device, roles[name]);
      reply := Ok;
    }

    /** `upsertRole`: the record, and every live session whose device has the role. */
    method UpsertRole(next: Role)
      requires Valid()
      modifies `roles, `sessions
      ensures Valid() && roles == old(roles)[next.name := next] && sessions == Rewritten(old(sessions), next)
    {
      roles := roles[next.name := next];
      sessions := Rewritten(sessions, next);
    }

    /** `deleteRole`: refused while an active device has the role. */
    method DeleteRole(name: Name) returns (reply: Reply)
      requires Valid()
      modifies `roles
      ensures Valid()
      ensures reply == if exists d :: d in devices && devices[d].role == name && devices[d].active then Failed else Ok
      ensures roles == if reply == Failed then old(roles) else old(roles) - {name}
    {
      if exists d :: d in devices && devices[d].role == name && devices[d].active { return Failed; }
      roles := roles - {name};
      reply := Ok;
    }

    // ---- the frames ------------------------------------------------------------------

    method FrameSetRole(id: nat, device: string, name: Name) returns (reply: Reply)
      requires Valid() && Contained() && Acts(id)
      modifies `devices, `sessions
      ensures Valid() && Contained()
      ensures reply == Forbidden <==>
        var actor := old(sessions)[id].role.capabilities; DevicesManage !in actor && Admin !in actor
      ensures DevicesManage !in ceiling ==> reply == Forbidden
      ensures reply == Ok <==>
        var actor := old(sessions)[id].role.capabilities;
        reply != Forbidden && name in roles && Escalating(actor, roles[name].capabilities) == []
      ensures if reply == Ok
        then
          && devices == Reassigned(old(devices), device, name)
          && sessions == Refreshed(old(sessions), device, roles[name])
        else devices == old(devices) && sessions == old(sessions)
    {
      WhoMayAct(id);
      var actor := sessions[id].role;
      if !HasCapability(actor.capabilities, DevicesManage) { return Forbidden; }
      if !MayGrantRole(actor, name) { return Failed; }
      if name in roles {
        GrantStaysWithin(actor.capabilities, roles[name].capabilities, ceiling);
        ReassignStaysWithin(roles, devices, sessions, party, ceiling, device, name);
      }
      reply := SetDeviceRole(device, name);
    }

    method FramePairCreate(id: nat, hash: string, name: Name, uses: nat, expiresAt: int) returns (reply: Reply)
      requires Valid() && Contained() && Acts(id) && hash !in codes
      modifies `codes, `minted
      ensures Valid() && Contained()
      ensures reply == Forbidden <==>
        var actor := sessions[id].role.capabilities; DevicesManage !in actor && Admin !in actor
      ensures DevicesManage !in ceiling ==> reply == Forbidden
      ensures reply == Ok <==>
        var actor := sessions[id].role.capabilities;
        reply != Forbidden && name in roles && Escalating(actor, roles[name].capabilities) == []
      ensures if reply == Ok
        then codes == old(codes)[hash := Code(name, uses, expiresAt)] && minted == old(minted) + {hash}
        else codes == old(codes) && minted == old(minted)
    {
      var actor := sessions[id].role;
      if !HasCapability(actor.capabilities, DevicesManage) { return Forbidden; }
      if !MayGrantRole(actor, name) { return Failed; }
      if name !in roles { return Failed; }
      GrantStaysWithin(actor.capabilities, roles[name].capabilities, ceiling);
      codes := codes[hash := Code(name, uses, expiresAt)];
      minted := minted + {hash};
      reply := Ok;
    }

    /**
     * What the sender may grant of the role is looked up, then sanitised once more and written: under
     * the name looked up, unless that ends in white space.
     */
    method FrameRolesUpsert(id: nat, raw: RawRole) returns (reply: Reply)
      requires Valid() && Contained() && Acts(id)
      modifies `roles, `sessions
      ensures Valid() && Contained()
      ensures reply == Forbidden <==>
        var actor := old(sessions)[id].role.capabilities; RolesManage !in actor && Admin !in actor
      ensures RolesManage !in ceiling ==> reply == Forbidden
      ensures reply == Ok ==>
        var actor := old(sessions)[id].role.capabilities;
        && SanitizeRole(raw, Own(actor)).Some?
        && var checked := SanitizeRole(raw, Own(actor)).value;
        && (checked.name in old(roles) ==> Escalating(actor, old(roles)[checked.name].capabilities) == [])
        && Again(checked).Some? && roles == old(roles)[Again(checked).value.name := Again(checked).value]
        && sessions == Rewritten(old(sessions), Again(checked).value)
        && (Again(checked).value == checked <==> !EndsInSpace(checked.name))
      ensures reply != Ok ==> roles == old(roles) && sessions == old(sessions)
    {
      WhoMayAct(id);
      var actor := sessions[id].role.capabilities;
      if !HasCapability(actor, RolesManage) { return Forbidden; }
      var next := SanitizeRole(raw, Own(actor));
      if next.None? { return Failed; }
      if next.value.name in roles && Escalating(actor, roles[next.value.name].capabilities) != [] { return Failed; }
      SanitizedStaysWithin(actor, raw, ceiling);
      SanitizedStays(raw, Own(actor));
      // upsertRole sanitises once more, granting anything.
      var written := SanitizeRole(Raw(next.value), Anything);
      if written.None? { return Failed; }
      UpsertStaysWithin(roles, devices, sessions, codes, party, minted, ceiling, written.value);
      UpsertRole(written.value);
      reply := Ok;
    }

    method FrameRolesDelete(id: nat, name: Name) returns (reply: Reply)
      requires Valid() && Contained() && Acts(id)
      modifies `roles
      ensures Valid() && Contained()
      ensures reply == Forbidden <==>
        var actor := sessions[id].role.capabilities; RolesManage !in actor && Admin !in actor
      ensures RolesManage !in ceiling ==> reply == Forbidden
      ensures reply == Failed <==>
        reply != Forbidden
        && exists d :: d in devices && devices[d].role == name && devices[d].active
      ensures roles == if reply == Ok then old(roles) - {name} else old(roles)
    {
      if !HasCapability(sessions[id].role.capabilities, RolesManage) { return Forbidden; }
      reply := DeleteRole(name);
    }

    method FrameRevoke(id: nat, device: string) returns (reply: Reply)
      requires Valid() && Contained() && Acts(id)
      modifies `devices, `sessions
      ensures Valid() && Contained()
      ensures var actor := old(sessions)[id].role.capabilities;
        reply == if DevicesManage in actor || Admin in actor then Ok else Forbidden
      ensures DevicesManage !in ceiling ==> reply == Forbidden
      ensures reply == Ok ==> devices == if device in old(devices)
        then old(devices)[device := old(devices)[device].(active := false)] else old(devices)
      ensures reply == Ok ==>
        sessions == map s | s in old(sessions) && old(sessions)[s].device != device :: old(sessions)[s]
    {
      WhoMayAct(id);
      if !HasCapability(sessions[id].role.capabilities, DevicesManage) { return Forbidden; }
      if device in devices {
        devices := devices[device := devices[device].(active := false)];
      }
      sessions := map s | s in sessions && sessions[s].device != device :: sessions[s];
      reply := Ok;
    }

    // ---- devices that join and come back ----------------------------------------------

    /** A use of the code, if there is one to be had. */
    predicate Redeemable(hash: string, now: int)
      reads this
    {
      hash in codes && codes[hash].usesLeft > 0 && codes[hash].expiresAt >= now
    }

    /** The role takes one more device. */
    predicate HasRoom(name: Name)
      reads this
    {
      name in roles && (roles[name].maxDevices.Some? ==> |Holders(devices, name)| < roles[name].maxDevices.value)
    }

    /**
     * Redeeming a code: a device enrols with the role as it is now, and joins the party if the party
     * minted the code. `allowed` is what the code's list of addresses says, `signed` whether the
     * signature over this connection's nonce is the key's.
     */
    method Redeem(hash: string, device: string, key: string, allowed: bool, signed: bool, session: nat, now: int)
      returns (reply: Reply)
      requires Valid() && Contained() && device !in devices && device !in party && session !in sessions
      modifies `devices, `sessions, `codes, `party
      ensures Valid() && Contained()
      ensures reply == Ok <==> old(
        && hash in codes && codes[hash].usesLeft > 0 && now <= codes[hash].expiresAt
        && allowed && HasRoom(codes[hash].role) && signed
        && forall d :: d in devices ==> devices[d].key != key)
      ensures reply == Ok ==> var name := old(codes)[hash].role;
        && codes == old(codes)[hash := old(codes)[hash].(usesLeft := old(codes)[hash].usesLeft - 1)]
        && devices == old(devices)[device := Device(name, true, key)]
        && sessions == old(sessions)[session := Session(device, name, roles[name])]
        && party == if hash in minted then old(party) + {device} else old(party)
      ensures reply == Ok ==> var role := roles[old(codes)[hash].role];
        role.maxDevices.Some? ==> |Holders(devices, role.name)| <= role.maxDevices.value
      ensures reply != Ok ==> reply == Failed
      ensures reply != Ok ==> devices == old(devices) && sessions == old(sessions) && party == old(party)
      ensures reply != Ok ==>
        codes == if hash in old(codes) && !old(Redeemable(hash, now)) then old(codes) - {hash} else old(codes)
    {
      if hash !in codes { return Failed; }
      var code := codes[hash];
      if code.expiresAt < now || code.usesLeft == 0 {
        codes := codes - {hash};
        return Failed;
      }
      // A use is reserved, and given back by whatever refuses from here on.
      codes := codes[hash := code.(usesLeft := code.usesLeft - 1)];
      if !allowed || !HasRoom(code.role) || !signed || exists d :: d in devices && devices[d].key == key {
        codes := codes[hash := codes[hash].(usesLeft := codes[hash].usesLeft + 1)];
        return Failed;
      }
      Enrol(device, key, session, roles[code.role], hash in minted);
      reply := Ok;
    }

    method Enrol(device: string, key: string, session: nat, role: Role, ghost joins: bool)
      requires Valid() && Contained() && device !in devices && device !in party && session !in sessions
      requires role.name in roles && roles[role.name] == role
      requires joins ==> Within(role.capabilities, ceiling)
      modifies `devices, `sessions, `party
      ensures Valid() && Contained()
      ensures devices == old(devices)[device := Device(role.name, true, key)]
      ensures sessions == old(sessions)[session := Session(device, role.name, role)]
      ensures party == if joins then old(party) + {device} else old(party)
      ensures |Holders(devices, role.name)| == |Holders(old(devices), role.name)| + 1
    {
      OneMoreHolder(devices, device, Device(role.name, true, key));
      devices := devices[device := Device(role.name, true, key)];
      sessions := sessions[session := Session(device, role.name, role)];
      if joins { party := party + {device}; }
    }

    /** A device authenticates again: its session gets the role as stored. */
    method Authenticate(device: string, session: nat) returns (reply: Reply)
      requires Valid() && Contained() && session !in sessions
      modifies `sessions
      ensures Valid() && Contained()
      ensures reply == if device in devices && devices[device].active && devices[device].role in roles
        then Ok else Failed
      ensures sessions == if reply == Ok
        then old(sessions)[session := Session(device, devices[device].role, roles[devices[device].role])]
        else old(sessions)
    {
      if device !in devices || !devices[device].active { return Failed; }
      if devices[device].role !in roles { return Failed; }
      sessions := sessions[session := Session(device, devices[device].role, roles[devices[device].role])];
      reply := Ok;
    }

    method Disconnect(session: nat)
      requires Valid() && Contained()
      modifies `sessions
      ensures Valid() && Contained() && sessions == old(sessions) - {session}
    {
      sessions := sessions - {session};
    }

    // ---- what a run keeps ----------------------------------------------------------------

    /** No device of the party comes to hold a privileged capability that none of them had. */
    lemma PrivilegeNeverGrows(d: string, cap: Capability)
      requires Contained() && d in party && d in devices
      requires cap in {NotifyAct, NotifySend, CallPlace, DevicesManage, RolesManage, AuditRead, Admin}
      ensures devices[d].role in roles ==>
        var caps := roles[devices[d].role].capabilities; cap in caps || Admin in caps ==> cap in ceiling
      ensures forall id :: id in sessions && sessions[id].device == d ==>
        var caps := sessions[id].role.capabilities; cap in caps || Admin in caps ==> cap in ceiling
    {
      assert RoleWithin(roles, devices[d].role, ceiling);
    }

    /** So a frame that needs what none of them had at the start is forbidden to all of them, for ever. */
    lemma WhoMayAct(id: nat)
      requires Contained() && Acts(id)
      ensures var caps := sessions[id].role.capabilities;
        && Admin !in caps
        && (DevicesManage in caps ==> DevicesManage in ceiling) && (RolesManage in caps ==> RolesManage in ceiling)
    {
      assert Within(sessions[id].role.capabilities, ceiling);
    }
  }
}
