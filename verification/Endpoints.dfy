/**
 The access endpoints of a device: replacing them by a desired list inside one transaction, and
 recording the outcome of probing them.  The table holds the endpoints of every device.
 */
module Endpoints {
  import opened Outcomes

  datatype Verification = Unverified | Verified | VerificationFailed

  datatype Row = Row(device: nat, name: string, protocol: string, port: int, accessType: string,
                     status: Verification, verifiedAt: Option<int>, tlsName: string, credentialRef: string,
                     authMethod: string, username: string, keyPath: string, fingerprint: string)

  /** What the request asks for; an entry without an id is a new endpoint, `isNew` an id given beforehand. */
  datatype Entry = Entry(id: Option<nat>, isNew: bool, name: string, protocol: string, port: int, tlsName: string,
                         credentialRef: string, authMethod: string, username: string, keyPath: string,
                             fingerprint: string)

  type Table = map<nat, Row>

  datatype Error = NotFound | InUse | Constraint | Incomplete | UnknownEndpoint

  function AccessType(protocol: string): string {
    if protocol == "http" || protocol == "https" then "web_proxy"
    else if protocol == "ssh" then "web_ssh" else "port_forward"
  }

  /***** Constraints and statements *****/

  /** The CHECK constraints on the protocol and the port. */
  predicate Checked(protocol: string, port: int) {
    protocol in ["http", "https", "ssh", "rtsp", "tcp", "rdp", "mysql", "postgresql"] && 1 <= port <= 65535
  }

  predicate SameTarget(a: Row, b: Row) {
    a.device == b.device && a.protocol == b.protocol && a.port == b.port
  }

  /** UNIQUE(device, protocol, port), for one pair of rows. */
  predicate Apart(t: Table, a: nat, b: nat) {
    a in t && b in t && SameTarget(t[a], t[b]) ==> a == b
  }

  ghost predicate TargetsUnique(t: Table) {
    forall a, b :: Apart(t, a, b)
  }

  /** May the row be written under this id? */
  predicate Fits(t: Table, id: nat, row: Row) {
    Checked(row.protocol, row.port) && forall other | other in t && other != id :: !SameTarget(t[other], row)
  }

  function Kept(given: string, stored: string): string {
    if given == "" then stored else given
  }

  predicate Retargets(row: Row, e: Entry) {
    row.protocol != e.protocol || row.port != e.port
  }

  /** The row after an UPDATE: what was verified was the old protocol and port. */
  function UpdatedRow(row: Row, e: Entry): Row {
    row.(name := e.name, protocol := e.protocol, port := e.port, accessType := AccessType(e.protocol),
         status := if Retargets(row, e) then Unverified else row.status,
         verifiedAt := if Retargets(row, e) then None else row.verifiedAt,
         tlsName := e.tlsName, credentialRef := Kept(e.credentialRef, row.credentialRef),
         authMethod := Kept(e.authMethod, row.authMethod), username := Kept(e.username, row.username),
         keyPath := if e.authMethod == "" && e.keyPath == "" then row.keyPath else e.keyPath,
         fingerprint := e.fingerprint)
  }

  function NewRow(device: nat, e: Entry): Row {
    Row(device, e.name, e.protocol, e.port, AccessType(e.protocol), Unverified, None, e.tlsName, e.credentialRef,
        e.authMethod, e.username, e.keyPath, e.fingerprint)
  }

  /** One entry: an id means UPDATE, which may find no row; without one a row is inserted under `drawn`. */
  function Put(t: Table, device: nat, e: Entry, drawn: nat): Option<Table> {
    match e.id
    case Some(id) =>
      if id !in t || t[id].device != device then Some(t)
      else if Fits(t, id, UpdatedRow(t[id], e)) then Some(t[id := UpdatedRow(t[id], e)]) else None
    case None =>
      if drawn !in t && Fits(t, drawn, NewRow(device, e)) then Some(t[drawn := NewRow(device, e)]) else None
  }

  function PutAll(t: Table, device: nat, entries: seq<Entry>, drawn: seq<nat>): Option<Table>
    requires |drawn| == |entries|
  {
    if entries == [] then Some(t)
    else
      var n := |entries| - 1;
      match PutAll(t, device, entries[..n], drawn[..n])
      case None => None
      case Some(t1) => Put(t1, device, entries[n], drawn[n])
  }

  /***** Replacing the endpoints *****/

  predicate Exists(t: Table, device: nat, id: nat) {
    id in t && t[id].device == device
  }

  /** The entry names an endpoint that stays. */
  predicate Keeps(t: Table, device: nat, e: Entry) {
    e.id.Some? && !e.isNew && Exists(t, device, e.id.value)
  }

  function KeptIds(t: Table, device: nat, entries: seq<Entry>): set<nat> {
    set i | 0 <= i < |entries| && Keeps(t, device, entries[i]) :: entries[i].id.value
  }

  function Dropped(t: Table, device: nat, entries: seq<Entry>): set<nat> {
    set id | id in t && t[id].device == device && id !in KeptIds(t, device, entries)
  }

  predicate Names(t: Table, device: nat, e: Entry) {
    e.id.Some? && !e.isNew ==> Exists(t, device, e.id.value)
  }

  predicate BusyEntry(t: Table, device: nat, inUse: set<nat>, e: Entry) {
    Keeps(t, device, e) && e.id.value in inUse && Retargets(t[e.id.value], e)
  }

  predicate AllNamed(t: Table, device: nat, entries: seq<Entry>) {
    forall i | 0 <= i < |entries| :: Names(t, device, entries[i])
  }

  predicate NoneBusy(t: Table, device: nat, inUse: set<nat>, entries: seq<Entry>) {
    forall i | 0 <= i < |entries| :: !BusyEntry(t, device, inUse, entries[i])
  }

  /** `replaceDeviceEndpointsTx`; any error rolls the transaction back. */
  function Replaced(t: Table, device: nat, entries: seq<Entry>, inUse: set<nat>, drawn: seq<nat>): Result<Table, Error>
    requires |drawn| == |entries|
  {
    if !AllNamed(t, device, entries) then Err(NotFound)
    else if !NoneBusy(t, device, inUse, entries) then Err(InUse)
    else if Dropped(t, device, entries) * inUse != {} then Err(InUse)
    else
      match PutAll(t - Dropped(t, device, entries), device, entries, drawn)
      case None => Err(Constraint)
      case Some(t1) => Ok(t1)
  }

  /***** What a successful replacement leaves *****/

  /** Ids given in the list are given once. */
  predicate IdsDistinct(entries: seq<Entry>) {
    forall i, j | 0 <= i < j < |entries| :: entries[i].id.Some? ==> entries[i].id != entries[j].id
  }

  /** No id drawn at random is one given in the list. */
  predicate DrawnApart(entries: seq<Entry>, drawn: seq<nat>) {
    forall i, j | 0 <= i < |drawn| && 0 <= j < |entries| :: entries[j].id != Some(drawn[i])
  }

  /** An id given beforehand is updated where no row is: the entry leaves nothing. */
  predicate Lost(e: Entry) {
    e.isNew && e.id.Some?
  }

  function IdOf(e: Entry, drawn: nat): nat {
    if e.id.Some? then e.id.value else drawn
  }

  /** The row that the entry asks for, given what its id stood for before. */
  predicate Matches(t: Table, device: nat, e: Entry, drawn: nat, t1: Table) {
    var id := IdOf(e, drawn);
    id in t1 && t1[id] == if e.id.Some? && id in t then UpdatedRow(t[id], e) else NewRow(device, e)
  }

  /** Where each row of the table comes from, when the first `n` entries have been put. */
  predicate RowFrom(t: Table, device: nat, entries: seq<Entry>, drawn: seq<nat>, t1: Table, id: nat)
    requires |drawn| == |entries|
  {
    if exists i :: 0 <= i < |entries| && !Lost(entries[i]) && IdOf(entries[i], drawn[i]) == id then true
    else (id in t1 <==> id in t) && (id in t ==> t1[id] == t[id])
  }

  ghost predicate Done(t: Table, device: nat, entries: seq<Entry>, drawn: seq<nat>, t1: Table)
    requires |drawn| == |entries|
  {
    (forall i | 0 <= i < |entries| :: !Lost(entries[i]) ==> Matches(t, device, entries[i], drawn[i], t1)) &&
    (forall id :: RowFrom(t, device, entries, drawn, t1, id)) &&
    (forall i | 0 <= i < |entries| :: entries[i].id.None? ==> drawn[i] !in t)
  }

  /** Every entry with an id either names a row of the device or names none at all. */
  predicate Settled(t: Table, device: nat, e: Entry) {
    e.id.Some? ==> if Lost(e) then !Exists(t, device, e.id.value) else Exists(t, device, e.id.value)
  }

  lemma {:induction false} PutAllIsDone(t: Table, device: nat, entries: seq<Entry>, drawn: seq<nat>)
    requires |drawn| == |entries| && PutAll(t, device, entries, drawn).Some? && IdsDistinct(entries) &&
             DrawnApart(entries, drawn)
    requires forall i | 0 <= i < |entries| :: Settled(t, device, entries[i])
    ensures Done(t, device, entries, drawn, PutAll(t, device, entries, drawn).value)
  {
    hide UpdatedRow, NewRow, Fits;
    if entries != [] {
      var n := |entries| - 1;
      var front, drawn0 := entries[..n], drawn[..n];
      PutAllIsDone(t, device, front, drawn0);
      var t0 := PutAll(t, device, front, drawn0).value;
      OneMorePut(t, device, entries, drawn, t0);
    }
  }

  /** What putting an entry that is not lost amounts to, when earlier entries had other ids. */
  lemma PutWrites(t: Table, device: nat, front: seq<Entry>, drawn: seq<nat>, t0: Table, e: Entry, f: nat)
    requires |drawn| == |front| && Done(t, device, front, drawn, t0) && Put(t0, device, e, f).Some? &&
             Settled(t, device, e)
    requires forall i | 0 <= i < |front| :: (front[i].id.Some? ==> front[i].id != e.id) && e.id != Some(drawn[i])
    ensures var t1 := Put(t0, device, e, f).value;
      if Lost(e) then t1 == t0
      else t1.Keys == t0.Keys + {IdOf(e, f)} && Matches(t, device, e, f, t1) &&
           t1 == t0[IdOf(e, f) := t1[IdOf(e, f)]] &&
           (forall i | 0 <= i < |front| :: !Lost(front[i]) ==> IdOf(front[i], drawn[i]) != IdOf(e, f)) &&
           (e.id.None? ==> f !in t)
  {
    hide UpdatedRow, NewRow, Fits;
    var id := IdOf(e, f);
    if !Lost(e) {
      forall i | 0 <= i < |front| && !Lost(front[i]) ensures IdOf(front[i], drawn[i]) != id {
        assert Matches(t, device, front[i], drawn[i], t0);
      }
    }
    assert RowFrom(t, device, front, drawn, t0, id);
  }

  lemma OneMorePut(t: Table, device: nat, entries: seq<Entry>, drawn: seq<nat>, t0: Table)
    requires |drawn| == |entries| > 0 && IdsDistinct(entries) && DrawnApart(entries, drawn)
    requires forall i | 0 <= i < |entries| :: Settled(t, device, entries[i])
    requires Done(t, device, entries[..|entries| - 1], drawn[..|entries| - 1], t0)
    requires Put(t0, device, entries[|entries| - 1], drawn[|entries| - 1]).Some?
    ensures Done(t, device, entries, drawn, Put(t0, device, entries[|entries| - 1], drawn[|entries| - 1]).value)
  {
    hide UpdatedRow, NewRow, Fits, Put;
    var n := |entries| - 1;
    var front, drawn0, e, f := entries[..n], drawn[..n], entries[n], drawn[n];
    var t1 := Put(t0, device, e, f).value;
    PutWrites(t, device, front, drawn0, t0, e, f);
    forall i | 0 <= i < |entries|
      ensures (!Lost(entries[i]) ==> Matches(t, device, entries[i], drawn[i], t1)) &&
              (entries[i].id.None? ==> drawn[i] !in t)
    {
      if i < n {
        assert front[i] == entries[i] && drawn0[i] == drawn[i];
      }
    }
    forall id ensures RowFrom(t, device, entries, drawn, t1, id) {
      assert RowFrom(t, device, front, drawn0, t0, id);
      if exists i :: 0 <= i < n && !Lost(front[i]) && IdOf(front[i], drawn0[i]) == id {
        var i :| 0 <= i < n && !Lost(front[i]) && IdOf(front[i], drawn0[i]) == id;
        assert !Lost(entries[i]) && IdOf(entries[i], drawn[i]) == id;
      }
    }
  }

  /** The device has the row because an entry that is not lost asked for it. */
  predicate Asked(entries: seq<Entry>, drawn: seq<nat>, id: nat)
    requires |drawn| == |entries|
  {
    exists i :: 0 <= i < |entries| && !Lost(entries[i]) && IdOf(entries[i], drawn[i]) == id
  }

  lemma SettledAfterDrop(t: Table, device: nat, entries: seq<Entry>, i: nat)
    requires IdsDistinct(entries) && i < |entries| && Names(t, device, entries[i])
    ensures Settled(t - Dropped(t, device, entries), device, entries[i])
  {
    if entries[i].id.Some? {
      var id := entries[i].id.value;
      if Lost(entries[i]) {
        forall j | 0 <= j < |entries| && Keeps(t, device, entries[j]) ensures entries[j].id.value != id {
        }
        assert id !in KeptIds(t, device, entries);
      } else {
        assert Keeps(t, device, entries[i]);
        assert id in KeptIds(t, device, entries);
      }
    }
  }

  /**
   When the replacement succeeds and the ids in the list are distinct: the device has exactly one row
   for each entry that is not lost, kept endpoints under their own ids, and each row is what its entry
   asks for; every other device's rows are as they were.
   */
  lemma ReplacementIsExact(t: Table, device: nat, entries: seq<Entry>, inUse: set<nat>, drawn: seq<nat>)
    requires |drawn| == |entries| && IdsDistinct(entries) && DrawnApart(entries, drawn) &&
             Replaced(t, device, entries, inUse, drawn).Ok?
    ensures var t1 := Replaced(t, device, entries, inUse, drawn).value;
      forall i | 0 <= i < |entries| :: !Lost(entries[i]) ==> Matches(t, device, entries[i], drawn[i], t1)
    ensures var t1 := Replaced(t, device, entries, inUse, drawn).value;
      forall id :: Exists(t1, device, id) <==> Asked(entries, drawn, id)
    ensures var t1 := Replaced(t, device, entries, inUse, drawn).value;
      forall id | id in t && t[id].device != device :: id in t1 && t1[id] == t[id]
  {
    hide UpdatedRow, NewRow, Fits, PutAll;
    var t0 := t - Dropped(t, device, entries);
    var t1 := Replaced(t, device, entries, inUse, drawn).value;
    forall i | 0 <= i < |entries| ensures Settled(t0, device, entries[i]) {
      assert Names(t, device, entries[i]);
      SettledAfterDrop(t, device, entries, i);
    }
    PutAllIsDone(t0, device, entries, drawn);
    forall i | 0 <= i < |entries| && !Lost(entries[i]) ensures Matches(t, device, entries[i], drawn[i], t1) {
      assert Matches(t0, device, entries[i], drawn[i], t1) && Settled(t0, device, entries[i]);
    }
    forall id ensures Exists(t1, device, id) <==> Asked(entries, drawn, id) {
      assert RowFrom(t0, device, entries, drawn, t1, id);
      if Asked(entries, drawn, id) {
        var i :| 0 <= i < |entries| && !Lost(entries[i]) && IdOf(entries[i], drawn[i]) == id;
        MatchedDevice(t, device, entries[i], drawn[i], t1);
        assert Names(t, device, entries[i]);
      } else if Exists(t0, device, id) {
        NotDroppedIsAsked(t, device, entries, drawn, id);
      }
    }
    forall id | id in t && t[id].device != device ensures id in t1 && t1[id] == t[id] {
      assert RowFrom(t0, device, entries, drawn, t1, id);
      OtherDeviceIsNotAsked(t, t0, device, entries, drawn, t1, id);
    }
  }

  lemma MatchedDevice(t: Table, device: nat, e: Entry, drawn: nat, t1: Table)
    requires Matches(t, device, e, drawn, t1)
    ensures t1[IdOf(e, drawn)].device == if e.id.Some? && e.id.value in t then t[e.id.value].device else device
  {
  }

  lemma NotDroppedIsAsked(t: Table, device: nat, entries: seq<Entry>, drawn: seq<nat>, id: nat)
    requires |drawn| == |entries| && Exists(t - Dropped(t, device, entries), device, id)
    ensures Asked(entries, drawn, id)
  {
    assert id in KeptIds(t, device, entries);
    var i :| 0 <= i < |entries| && Keeps(t, device, entries[i]) && entries[i].id.value == id;
    assert !Lost(entries[i]) && IdOf(entries[i], drawn[i]) == id;
  }

  lemma OtherDeviceIsNotAsked(t: Table, t0: Table, device: nat, entries: seq<Entry>, drawn: seq<nat>, t1: Table,
                              id: nat)
    requires |drawn| == |entries| && id in t0 && t0[id].device != device && Done(t0, device, entries, drawn, t1)
    requires forall i | 0 <= i < |entries| :: Settled(t0, device, entries[i])
    ensures !Asked(entries, drawn, id)
  {
    forall i | 0 <= i < |entries| && !Lost(entries[i]) ensures IdOf(entries[i], drawn[i]) != id {
      assert Settled(t0, device, entries[i]);
    }
  }

  /** An endpoint in use is neither deleted nor pointed elsewhere. */
  lemma InUseIsUntouched(t: Table, device: nat, entries: seq<Entry>, inUse: set<nat>, drawn: seq<nat>, id: nat)
    requires |drawn| == |entries| && IdsDistinct(entries) && DrawnApart(entries, drawn) &&
             Replaced(t, device, entries, inUse, drawn).Ok?
    requires id in inUse && Exists(t, device, id)
    ensures var t1 := Replaced(t, device, entries, inUse, drawn).value;
      Exists(t1, device, id) && t1[id].protocol == t[id].protocol && t1[id].port == t[id].port &&
      t1[id].status == t[id].status && t1[id].verifiedAt == t[id].verifiedAt
  {
    hide PutAll, Fits;
    assert id in Dropped(t, device, entries) ==> id in Dropped(t, device, entries) * inUse;
    assert id in KeptIds(t, device, entries);
    var i :| 0 <= i < |entries| && Keeps(t, device, entries[i]) && entries[i].id.value == id;
    assert !BusyEntry(t, device, inUse, entries[i]);
    ReplacementIsExact(t, device, entries, inUse, drawn);
    assert Matches(t, device, entries[i], drawn[i], Replaced(t, device, entries, inUse, drawn).value);
  }

  /** What was verified stays so exactly when neither protocol nor port changes. */
  lemma VerificationSurvivesExactlyWhen(t: Table, device: nat, entries: seq<Entry>, inUse: set<nat>, drawn: seq<nat>,
                                        i: nat)
    requires |drawn| == |entries| && IdsDistinct(entries) && DrawnApart(entries, drawn) &&
             Replaced(t, device, entries, inUse, drawn).Ok?
    requires i < |entries| && Keeps(t, device, entries[i]) && t[entries[i].id.value].status != Unverified
    ensures var t1 := Replaced(t, device, entries, inUse, drawn).value;
      var id := entries[i].id.value;
      id in t1 && (t1[id].status == t[id].status <==> t1[id].protocol == t[id].protocol && t1[id].port == t[id].port) &&
      (if t1[id].status == t[id].status then t1[id].verifiedAt == t[id].verifiedAt
       else t1[id].status == Unverified && t1[id].verifiedAt == None)
  {
    hide PutAll, Fits;
    ReplacementIsExact(t, device, entries, inUse, drawn);
    assert Matches(t, device, entries[i], drawn[i], Replaced(t, device, entries, inUse, drawn).value);
  }

  /** The stored text is kept where nothing was given. */
  predicate GivenOrKept(given: string, stored: string, result: string) {
    if given == "" then result == stored else result == given
  }

  /**
   What an update leaves: an empty reference, method or user keeps the stored one, and so does a key path that
   is empty together with the method; all else is the entry's.
   */
  predicate CarriedOver(row: Row, e: Entry, row1: Row) {
    row1.device == row.device && row1.name == e.name && row1.tlsName == e.tlsName &&
    row1.fingerprint == e.fingerprint &&
    GivenOrKept(e.credentialRef, row.credentialRef, row1.credentialRef) &&
    GivenOrKept(e.authMethod, row.authMethod, row1.authMethod) &&
    GivenOrKept(e.username, row.username, row1.username) &&
    (if e.authMethod == "" && e.keyPath == "" then row1.keyPath == row.keyPath else row1.keyPath == e.keyPath)
  }

  /** Every row of the device after a replacement, field by field, from its entry and the row it replaces. */
  lemma RowsCarryTheirEntries(t: Table, device: nat, entries: seq<Entry>, inUse: set<nat>, drawn: seq<nat>, i: nat)
    requires |drawn| == |entries| && IdsDistinct(entries) && DrawnApart(entries, drawn) &&
             Replaced(t, device, entries, inUse, drawn).Ok?
    requires i < |entries| && !Lost(entries[i])
    ensures var t1 := Replaced(t, device, entries, inUse, drawn).value;
      var e := entries[i]; var id := if e.id.Some? then e.id.value else drawn[i];
      id in t1 &&
      var row1 := t1[id];
      row1.device == device && row1.protocol == e.protocol && row1.port == e.port &&
      row1.accessType == (if e.protocol in ["http", "https"] then "web_proxy"
                          else if e.protocol == "ssh" then "web_ssh" else "port_forward") &&
      if e.id.Some? then id in t && CarriedOver(t[id], e, row1)
      else row1.status == Unverified && row1.verifiedAt == None && row1.name == e.name && row1.tlsName == e.tlsName &&
           row1.credentialRef == e.credentialRef && row1.authMethod == e.authMethod && row1.username == e.username &&
           row1.keyPath == e.keyPath && row1.fingerprint == e.fingerprint
  {
    hide PutAll, Fits, Dropped;
    ReplacementIsExact(t, device, entries, inUse, drawn);
    var t1 := Replaced(t, device, entries, inUse, drawn).value;
    assert Matches(t, device, entries[i], drawn[i], t1);
    assert Names(t, device, entries[i]);
  }

  /** The entry says what the row says, or leaves it to the row. */
  predicate Restates(row: Row, e: Entry) {
    e.name == row.name && e.protocol == row.protocol && e.port == row.port && e.tlsName == row.tlsName &&
    e.fingerprint == row.fingerprint && (e.credentialRef == "" || e.credentialRef == row.credentialRef) &&
    (e.authMethod == "" || e.authMethod == row.authMethod) && (e.username == "" || e.username == row.username) &&
    (e.keyPath == row.keyPath || (e.authMethod == "" && e.keyPath == ""))
  }

  predicate RestatesStored(t: Table, device: nat, e: Entry) {
    Keeps(t, device, e) && Restates(t[e.id.value], e) &&
    Checked(e.protocol, e.port) && t[e.id.value].accessType == AccessType(e.protocol)
  }

  /** Replacing the endpoints of a device by what they are changes nothing, verifications included. */
  lemma SameListChangesNothing(t: Table, device: nat, entries: seq<Entry>, inUse: set<nat>, drawn: seq<nat>)
    requires |drawn| == |entries| && TargetsUnique(t)
    requires forall i | 0 <= i < |entries| :: RestatesStored(t, device, entries[i])
    requires forall id | Exists(t, device, id) :: id in KeptIds(t, device, entries)
    ensures Replaced(t, device, entries, inUse, drawn) == Ok(t)
  {
    hide PutAll, KeptIds;
    forall i | 0 <= i < |entries| ensures Names(t, device, entries[i]) && !BusyEntry(t, device, inUse, entries[i]) {
      assert RestatesStored(t, device, entries[i]);
    }
    assert Dropped(t, device, entries) == {};
    assert t - {} == t;
    PutAllSame(t, device, entries, drawn);
  }

  lemma PutSame(t: Table, device: nat, e: Entry, drawn: nat)
    requires TargetsUnique(t) && RestatesStored(t, device, e)
    ensures Put(t, device, e, drawn) == Some(t)
  {
    var id := e.id.value;
    assert UpdatedRow(t[id], e) == t[id];
    forall other | other in t && other != id ensures !SameTarget(t[other], t[id]) {
      assert Apart(t, other, id);
    }
    assert t[id := t[id]] == t;
  }

  lemma {:induction false} PutAllSame(t: Table, device: nat, entries: seq<Entry>, drawn: seq<nat>)
    requires |drawn| == |entries| && TargetsUnique(t)
    requires forall i | 0 <= i < |entries| :: RestatesStored(t, device, entries[i])
    ensures PutAll(t, device, entries, drawn) == Some(t)
  {
    hide Put, RestatesStored, TargetsUnique;
    if entries != [] {
      var n := |entries| - 1;
      PutAllSame(t, device, entries[..n], drawn[..n]);
      PutSame(t, device, entries[n], drawn[n]);
    }
  }

  /** No device ends with two endpoints on one protocol and port, and all are within the constraints. */
  lemma {:induction false} PutAllKeepsTargetsUnique(t: Table, device: nat, entries: seq<Entry>, drawn: seq<nat>)
    requires |drawn| == |entries| && TargetsUnique(t) && PutAll(t, device, entries, drawn).Some?
    ensures TargetsUnique(PutAll(t, device, entries, drawn).value)
  {
    hide UpdatedRow, NewRow;
    if entries != [] {
      var n := |entries| - 1;
      PutAllKeepsTargetsUnique(t, device, entries[..n], drawn[..n]);
      var t0 := PutAll(t, device, entries[..n], drawn[..n]).value;
      var t1 := Put(t0, device, entries[n], drawn[n]).value;
      forall a, b ensures Apart(t1, a, b) {
        assert Apart(t0, a, b);
      }
    }
  }

  lemma ReplacementKeepsTargetsUnique(t: Table, device: nat, entries: seq<Entry>, inUse: set<nat>, drawn: seq<nat>)
    requires |drawn| == |entries| && TargetsUnique(t) && Replaced(t, device, entries, inUse, drawn).Ok?
    ensures TargetsUnique(Replaced(t, device, entries, inUse, drawn).value)
  {
    hide PutAll;
    var t0 := t - Dropped(t, device, entries);
    forall a, b ensures Apart(t0, a, b) {
      assert Apart(t, a, b);
    }
    PutAllKeepsTargetsUnique(t0, device, entries, drawn);
  }

  /***** Entries without effect *****/

  function Without<T>(xs: seq<T>, k: nat): seq<T>
    requires k < |xs|
  {
    xs[..k] + xs[k + 1..]
  }

  /** Putting entries that do not carry an id does not bring a row of that id. */
  lemma {:induction false} PutAllLeavesOut(t: Table, device: nat, entries: seq<Entry>, drawn: seq<nat>, id: nat)
    requires |drawn| == |entries| && PutAll(t, device, entries, drawn).Some? && !Exists(t, device, id)
    requires forall i | 0 <= i < |entries| :: entries[i].id != Some(id) && drawn[i] != id
    ensures !Exists(PutAll(t, device, entries, drawn).value, device, id)
  {
    hide Fits, UpdatedRow, NewRow;
    if entries != [] {
      var n := |entries| - 1;
      PutAllLeavesOut(t, device, entries[..n], drawn[..n], id);
    }
  }

  lemma PutNothing(t: Table, device: nat, e: Entry, drawn: nat)
    requires e.id.Some? && !Exists(t, device, e.id.value)
    ensures Put(t, device, e, drawn) == Some(t)
  {
  }

  lemma PutAllSnoc(t: Table, device: nat, front: seq<Entry>, drawn: seq<nat>, e: Entry, f: nat)
    requires |drawn| == |front|
    ensures PutAll(t, device, front + [e], drawn + [f]) ==
            match PutAll(t, device, front, drawn) case None => None case Some(t1) => Put(t1, device, e, f)
  {
    hide Put;
    assert (front + [e])[..|front|] == front && (drawn + [f])[..|drawn|] == drawn;
  }

  lemma {:induction false} PutAllWithout(t: Table, device: nat, entries: seq<Entry>, drawn: seq<nat>, k: nat)
    requires k < |entries| == |drawn| && Lost(entries[k]) && !Exists(t, device, entries[k].id.value)
    requires IdsDistinct(entries) && DrawnApart(entries, drawn)
    ensures PutAll(t, device, entries, drawn) == PutAll(t, device, Without(entries, k), Without(drawn, k))
    decreases |entries|
  {
    hide Put, PutAll, Exists;
    var n := |entries| - 1;
    assert entries == entries[..n] + [entries[n]] && drawn == drawn[..n] + [drawn[n]];
    PutAllSnoc(t, device, entries[..n], drawn[..n], entries[n], drawn[n]);
    if k == n {
      assert Without(entries, k) == entries[..n] && Without(drawn, k) == drawn[..n];
      if PutAll(t, device, entries[..n], drawn[..n]).Some? {
        PutAllLeavesOut(t, device, entries[..n], drawn[..n], entries[k].id.value);
        PutNothing(PutAll(t, device, entries[..n], drawn[..n]).value, device, entries[k], drawn[k]);
      }
    } else {
      PutAllWithout(t, device, entries[..n], drawn[..n], k);
      PutAllSnoc(t, device, Without(entries[..n], k), Without(drawn[..n], k), entries[n], drawn[n]);
      assert Without(entries, k) == Without(entries[..n], k) + [entries[n]];
      assert Without(drawn, k) == Without(drawn[..n], k) + [drawn[n]];
    }
  }

  /** An entry is at one place of the shorter list, except the one left out. */
  lemma WithoutAt(entries: seq<Entry>, k: nat, i: nat)
    requires k < |entries| && i < |entries|
    ensures i < k ==> Without(entries, k)[i] == entries[i]
    ensures i > k ==> Without(entries, k)[i - 1] == entries[i]
  {
  }

  lemma SameKept(t: Table, device: nat, entries: seq<Entry>, k: nat)
    requires k < |entries| && Lost(entries[k])
    ensures KeptIds(t, device, Without(entries, k)) == KeptIds(t, device, entries)
  {
    var less := Without(entries, k);
    forall id ensures id in KeptIds(t, device, less) <==> id in KeptIds(t, device, entries) {
      if id in KeptIds(t, device, entries) {
        var i :| 0 <= i < |entries| && Keeps(t, device, entries[i]) && entries[i].id.value == id;
        WithoutAt(entries, k, i);
        assert Keeps(t, device, less[if i < k then i else i - 1]);
      }
      if id in KeptIds(t, device, less) {
        var i :| 0 <= i < |less| && Keeps(t, device, less[i]) && less[i].id.value == id;
        WithoutAt(entries, k, if i < k then i else i + 1);
        assert Keeps(t, device, entries[if i < k then i else i + 1]);
      }
    }
  }

  lemma SameObstacles(t: Table, device: nat, entries: seq<Entry>, inUse: set<nat>, k: nat)
    requires k < |entries| && Lost(entries[k])
    ensures AllNamed(t, device, Without(entries, k)) == AllNamed(t, device, entries)
    ensures NoneBusy(t, device, inUse, Without(entries, k)) == NoneBusy(t, device, inUse, entries)
  {
    var less := Without(entries, k);
    forall i | 0 <= i < |entries| && i != k ensures entries[i] == less[if i < k then i else i - 1] {
      WithoutAt(entries, k, i);
    }
    forall i | 0 <= i < |less| ensures less[i] == entries[if i < k then i else i + 1] {
      WithoutAt(entries, k, if i < k then i else i + 1);
    }
  }

  /**
   An entry with an id given beforehand takes the UPDATE branch and finds no row: leaving it out of the list
   gives the same result, whatever else the list holds.
   */
  lemma PregeneratedIdIsLost(t: Table, device: nat, entries: seq<Entry>, inUse: set<nat>, drawn: seq<nat>, k: nat)
    requires k < |entries| == |drawn| && Lost(entries[k]) && IdsDistinct(entries) && DrawnApart(entries, drawn)
    ensures Replaced(t, device, entries, inUse, drawn) ==
            Replaced(t, device, Without(entries, k), inUse, Without(drawn, k))
  {
    hide PutAll, Without, AllNamed, NoneBusy;
    SameKept(t, device, entries, k);
    SameObstacles(t, device, entries, inUse, k);
    SettledAfterDrop(t, device, entries, k);
    PutAllWithout(t - Dropped(t, device, entries), device, entries, drawn, k);
  }

  /***** Which lists are accepted *****/

  /** Ids drawn for new endpoints are new and drawn once. */
  predicate DrawnFresh(t: Table, entries: seq<Entry>, drawn: seq<nat>)
    requires |drawn| == |entries|
  {
    (forall i | 0 <= i < |entries| && entries[i].id.None? :: drawn[i] !in t) &&
    forall i, j | 0 <= i < j < |entries| && entries[i].id.None? && entries[j].id.None? :: drawn[i] != drawn[j]
  }

  predicate Aims(e: Entry, protocol: string, port: int) {
    e.protocol == protocol && e.port == port
  }

  /** An earlier entry that has effect asks for the same protocol and port. */
  predicate TakenBefore(entries: seq<Entry>, i: nat)
    requires i < |entries|
  {
    exists j :: 0 <= j < i && !Lost(entries[j]) && Aims(entries[j], entries[i].protocol, entries[i].port)
  }

  /** A later entry keeps an endpoint whose present protocol and port this one asks for. */
  predicate StillTaken(t: Table, device: nat, entries: seq<Entry>, i: nat)
    requires i < |entries|
  {
    exists j :: i < j < |entries| && Keeps(t, device, entries[j]) &&
      Aims(entries[i], t[entries[j].id.value].protocol, t[entries[j].id.value].port)
  }

  /** The entry's statement meets no constraint. */
  predicate Placeable(t: Table, device: nat, entries: seq<Entry>, i: nat)
    requires i < |entries|
  {
    !Lost(entries[i]) ==>
      Checked(entries[i].protocol, entries[i].port) && !TakenBefore(entries, i) && !StillTaken(t, device, entries, i)
  }

  /** A row of the device, other than `id`, has this protocol and port. */
  predicate Occupied(t: Table, device: nat, id: nat, protocol: string, port: int) {
    exists other :: other in t && other != id && t[other].device == device && t[other].protocol == protocol &&
      t[other].port == port
  }

  lemma MatchedTarget(t: Table, device: nat, e: Entry, drawn: nat, t1: Table)
    requires Matches(t, device, e, drawn, t1) && Settled(t, device, e) && !Lost(e)
    ensures var row := t1[IdOf(e, drawn)]; row.device == device && Aims(e, row.protocol, row.port)
  {
  }

  /** Everything known before the statement of entry `n`: the rows left, and what the earlier entries wrote. */
  ghost predicate Before(t: Table, device: nat, entries: seq<Entry>, drawn: seq<nat>, n: nat, t1: Table) {
    |drawn| == |entries| && n < |entries| && IdsDistinct(entries) && DrawnApart(entries, drawn) &&
    DrawnFresh(t, entries, drawn) && (forall i | 0 <= i < |entries| :: Names(t, device, entries[i])) &&
    (forall i | 0 <= i < |entries| :: Settled(t - Dropped(t, device, entries), device, entries[i])) &&
    Done(t - Dropped(t, device, entries), device, entries[..n], drawn[..n], t1)
  }

  /** Different entries have different ids. */
  lemma IdsDiffer(t: Table, entries: seq<Entry>, drawn: seq<nat>, i: nat, j: nat)
    requires |drawn| == |entries| && IdsDistinct(entries) && DrawnApart(entries, drawn) && DrawnFresh(t, entries, drawn)
    requires i < |entries| && j < |entries| && i != j
    ensures IdOf(entries[i], drawn[i]) != IdOf(entries[j], drawn[j])
  {
    if entries[i].id.None? && entries[j].id.None? {
      assert drawn[if i < j then i else j] != drawn[if i < j then j else i];
    }
  }

  /** The row of a later entry is still what it was. */
  lemma LaterRowIsOld(t: Table, device: nat, entries: seq<Entry>, drawn: seq<nat>, n: nat, t1: Table, j: nat)
    requires Before(t, device, entries, drawn, n, t1) && n <= j < |entries|
    ensures var id := IdOf(entries[j], drawn[j]); var t0 := t - Dropped(t, device, entries);
      (id in t1 <==> id in t0) && (id in t0 ==> t1[id] == t0[id])
  {
    hide Matches, Settled, Names;
    var id := IdOf(entries[j], drawn[j]);
    var front, drawn0 := entries[..n], drawn[..n];
    assert RowFrom(t - Dropped(t, device, entries), device, front, drawn0, t1, id);
    forall i | 0 <= i < n ensures IdOf(front[i], drawn0[i]) != id {
      IdsDiffer(t, entries, drawn, i, j);
    }
  }

  lemma TakenIsOccupied(t: Table, device: nat, entries: seq<Entry>, drawn: seq<nat>, n: nat, t1: Table)
    requires Before(t, device, entries, drawn, n, t1) && (TakenBefore(entries, n) || StillTaken(t, device, entries, n))
    ensures Occupied(t1, device, IdOf(entries[n], drawn[n]), entries[n].protocol, entries[n].port)
  {
    var t0 := t - Dropped(t, device, entries);
    var e := entries[n];
    if TakenBefore(entries, n) {
      var i :| 0 <= i < n && !Lost(entries[i]) && Aims(entries[i], e.protocol, e.port);
      assert entries[..n][i] == entries[i] && drawn[..n][i] == drawn[i];
      MatchedTarget(t0, device, entries[i], drawn[i], t1);
      IdsDiffer(t, entries, drawn, i, n);
      assert IdOf(entries[i], drawn[i]) in t1;
    } else {
      var j :| n < j < |entries| && Keeps(t, device, entries[j]) &&
               Aims(e, t[entries[j].id.value].protocol, t[entries[j].id.value].port);
      LaterRowIsOld(t, device, entries, drawn, n, t1, j);
      IdsDiffer(t, entries, drawn, j, n);
      assert entries[j].id.value in KeptIds(t, device, entries);
      assert entries[j].id.value in t1;
    }
  }

  lemma OccupiedIsTaken(t: Table, device: nat, entries: seq<Entry>, drawn: seq<nat>, n: nat, t1: Table)
    requires Before(t, device, entries, drawn, n, t1)
    requires Occupied(t1, device, IdOf(entries[n], drawn[n]), entries[n].protocol, entries[n].port)
    ensures TakenBefore(entries, n) || StillTaken(t, device, entries, n)
  {
    var t0 := t - Dropped(t, device, entries);
    var e, id := entries[n], IdOf(entries[n], drawn[n]);
    var front, drawn0 := entries[..n], drawn[..n];
    var other :| other in t1 && other != id && t1[other].device == device && t1[other].protocol == e.protocol &&
                 t1[other].port == e.port;
    assert RowFrom(t0, device, front, drawn0, t1, other);
    if i :| 0 <= i < n && !Lost(front[i]) && IdOf(front[i], drawn0[i]) == other {
      assert front[i] == entries[i] && drawn0[i] == drawn[i];
      MatchedTarget(t0, device, entries[i], drawn[i], t1);
      assert Aims(entries[i], e.protocol, e.port);
    } else {
      assert other in KeptIds(t, device, entries);
      var j :| 0 <= j < |entries| && Keeps(t, device, entries[j]) && entries[j].id.value == other;
      assert j < n ==> front[j] == entries[j];
      assert Aims(e, t[entries[j].id.value].protocol, t[entries[j].id.value].port);
    }
  }

  /** The statement of an entry succeeds exactly when the entry is placeable. */
  lemma PutsExactlyWhen(t: Table, device: nat, entries: seq<Entry>, drawn: seq<nat>, n: nat, t1: Table)
    requires Before(t, device, entries, drawn, n, t1)
    ensures Put(t1, device, entries[n], drawn[n]).Some? <==> Placeable(t, device, entries, n)
  {
    hide Done, DrawnApart, TakenBefore, StillTaken, IdsDistinct;
    var e, id := entries[n], IdOf(entries[n], drawn[n]);
    LaterRowIsOld(t, device, entries, drawn, n, t1, n);
    assert Settled(t - Dropped(t, device, entries), device, e);
    if !Lost(e) {
      if TakenBefore(entries, n) || StillTaken(t, device, entries, n) {
        TakenIsOccupied(t, device, entries, drawn, n, t1);
      }
      if Occupied(t1, device, id, e.protocol, e.port) {
        OccupiedIsTaken(t, device, entries, drawn, n, t1);
      }
      FitsExactlyWhen(t1, device, e, drawn[n]);
    }
  }

  lemma FitsExactlyWhen(t: Table, device: nat, e: Entry, drawn: nat)
    requires if e.id.Some? then Exists(t, device, e.id.value) else drawn !in t
    ensures Put(t, device, e, drawn).Some? <==>
            Checked(e.protocol, e.port) && !Occupied(t, device, IdOf(e, drawn), e.protocol, e.port)
  {
    var id := IdOf(e, drawn);
    var row := if e.id.Some? then UpdatedRow(t[id], e) else NewRow(device, e);
    assert row.device == device && row.protocol == e.protocol && row.port == e.port;
    if Occupied(t, device, id, e.protocol, e.port) {
      var other :| other in t && other != id && t[other].device == device && t[other].protocol == e.protocol &&
                   t[other].port == e.port;
      assert SameTarget(t[other], row);
    }
  }

  ghost predicate AllPlaceable(t: Table, device: nat, entries: seq<Entry>, n: nat)
    requires n <= |entries|
  {
    forall i | 0 <= i < n :: Placeable(t, device, entries, i)
  }

  lemma {:induction false} PutsAllExactlyWhen(t: Table, device: nat, entries: seq<Entry>, drawn: seq<nat>, n: nat)
    requires n <= |entries| == |drawn| && IdsDistinct(entries) && DrawnApart(entries, drawn) &&
             DrawnFresh(t, entries, drawn)
    requires forall i | 0 <= i < |entries| :: Names(t, device, entries[i])
    ensures PutAll(t - Dropped(t, device, entries), device, entries[..n], drawn[..n]).Some? <==>
            AllPlaceable(t, device, entries, n)
  {
    hide Placeable, Put, Dropped, Settled, Names;
    if n > 0 {
      PutsAllExactlyWhen(t, device, entries, drawn, n - 1);
      var t0 := t - Dropped(t, device, entries);
      var r := PutAll(t0, device, entries[..n - 1], drawn[..n - 1]);
      assert entries[..n][..n - 1] == entries[..n - 1] && drawn[..n][..n - 1] == drawn[..n - 1];
      if r.Some? {
        forall i | 0 <= i < |entries| ensures Settled(t0, device, entries[i]) {
          SettledAfterDrop(t, device, entries, i);
        }
        PutAllIsDone(t0, device, entries[..n - 1], drawn[..n - 1]);
        PutsExactlyWhen(t, device, entries, drawn, n - 1, r.value);
      }
    }
  }

  /**
   Exactly which lists are accepted: every id names an endpoint of the device; nothing in use is pointed
   elsewhere or left out; and every entry that has effect has a permitted protocol and port, which no earlier
   such entry asks for and no later entry's endpoint still has.
   */
  lemma ReplacementSucceedsExactlyWhen(t: Table, device: nat, entries: seq<Entry>, inUse: set<nat>, drawn: seq<nat>)
    requires |drawn| == |entries| && IdsDistinct(entries) && DrawnApart(entries, drawn) && DrawnFresh(t, entries, drawn)
    ensures Replaced(t, device, entries, inUse, drawn).Ok? <==>
            AllNamed(t, device, entries) && NoneBusy(t, device, inUse, entries) &&
            Dropped(t, device, entries) * inUse == {} && AllPlaceable(t, device, entries, |entries|)
  {
    hide PutAll, AllPlaceable, Dropped, NoneBusy;
    if AllNamed(t, device, entries) {
      assert entries[..|entries|] == entries && drawn[..|entries|] == drawn;
      PutsAllExactlyWhen(t, device, entries, drawn, |entries|);
    }
  }

  /**
   Two endpoints cannot exchange their targets in one replacement, whatever else is in the list and in use,
   although no two rows would end on one target: the earlier UPDATE meets the later one's row.
   */
  lemma ExchangeIsRefused(t: Table, device: nat, entries: seq<Entry>, inUse: set<nat>, drawn: seq<nat>, i: nat, j: nat)
    requires |drawn| == |entries| && IdsDistinct(entries) && DrawnApart(entries, drawn) && DrawnFresh(t, entries, drawn)
    requires i < j < |entries| && Keeps(t, device, entries[i]) && Keeps(t, device, entries[j])
    requires var a, b := t[entries[i].id.value], t[entries[j].id.value];
      Aims(entries[i], b.protocol, b.port) && Aims(entries[j], a.protocol, a.port)
    ensures Replaced(t, device, entries, inUse, drawn).Err?
    ensures AllNamed(t, device, entries) && NoneBusy(t, device, inUse, entries) &&
            Dropped(t, device, entries) * inUse == {} ==>
            Replaced(t, device, entries, inUse, drawn) == Err(Constraint)
  {
    hide PutAll, Dropped, NoneBusy, AllNamed;
    ReplacementSucceedsExactlyWhen(t, device, entries, inUse, drawn);
    assert StillTaken(t, device, entries, i);
    assert !Placeable(t, device, entries, i);
  }

  /***** The store *****/

  class Store {
    var endpoints: Table
    /** Endpoints with a forwarded port or an active session. */
    var inUse: set<nat>

    /** One entry's statement. */
    method PutEntry(device: nat, e: Entry, drawn: nat) returns (ok: bool)
      modifies this`endpoints
      ensures ok <==> Put(old(endpoints), device, e, drawn).Some?
      ensures ok ==> endpoints == Put(old(endpoints), device, e, drawn).value
    {
      if e.id.Some? {
        var id := e.id.value;
        if id !in endpoints || endpoints[id].device != device {
          return true;
        }
        var row := UpdatedRow(endpoints[id], e);
        ok := Fits(endpoints, id, row);
        if ok {
          endpoints := endpoints[id := row];
        }
      } else {
        ok := drawn !in endpoints && Fits(endpoints, drawn, NewRow(device, e));
        if ok {
          endpoints := endpoints[drawn := NewRow(device, e)];
        }
      }
    }

    /** The new endpoints are drawn from `drawn`; on an error the transaction is rolled back. */
    method ReplaceDeviceEndpoints(device: nat, desired: seq<Entry>, drawn: seq<nat>) returns (r: Result<(), Error>)
      requires |drawn| == |desired|
      modifies this`endpoints
      ensures match Replaced(old(endpoints), device, desired, inUse, drawn)
              case Ok(t1) => r == Ok(()) && endpoints == t1
              case Err(e) => r == Err(e) && endpoints == old(endpoints)
    {
      hide Fits, UpdatedRow, NewRow, Put, PutAll, Exists;
      var saved := endpoints;
      for i := 0 to |desired|
        invariant endpoints == saved && forall j | 0 <= j < i :: Names(saved, device, desired[j])
      {
        if !Names(saved, device, desired[i]) {
          return Err(NotFound);
        }
      }
      var desiredIDs: set<nat> := {};
      for i := 0 to |desired|
        invariant endpoints == saved && desiredIDs == KeptIds(saved, device, desired[..i])
        invariant forall j | 0 <= j < i :: !BusyEntry(saved, device, inUse, desired[j])
      {
        KeptOneMore(saved, device, desired, i);
        if Keeps(saved, device, desired[i]) {
          if BusyEntry(saved, device, inUse, desired[i]) {
            return Err(InUse);
          }
          desiredIDs := desiredIDs + {desired[i].id.value};
        }
      }
      assert desired[..|desired|] == desired;
      var dropped := set id | id in saved && saved[id].device == device && id !in desiredIDs;
      assert dropped == Dropped(saved, device, desired);
      if dropped * inUse != {} {
        return Err(InUse);
      }
      endpoints := endpoints - dropped;
      ghost var t0 := endpoints;
      PutNone(t0, device);
      for i := 0 to |desired|
        invariant PutAll(t0, device, desired[..i], drawn[..i]) == Some(endpoints)
      {
        PutOneMore(t0, device, desired, drawn, i);
        var ok := PutEntry(device, desired[i], drawn[i]);
        if !ok {
          PutFails(t0, device, desired, drawn, i + 1);
          endpoints := saved;
          return Err(Constraint);
        }
      }
      assert drawn[..|desired|] == drawn;
      return Ok(());
    }

    /** Every endpoint of the device gets its status, or none does. */
    method VerifyDeviceEndpoints(device: nat, statuses: map<nat, bool>, now: int) returns (r: Result<bool, Error>)
      modifies this`endpoints
      ensures r.Ok? <==> statuses != map[] && statuses.Keys == OwnIds(old(endpoints), device)
      ensures r.Ok? ==>
                endpoints == Probed(old(endpoints), statuses, now) &&
                (r.value <==> exists id :: id in statuses && statuses[id])
      ensures r.Err? ==> endpoints == old(endpoints)
    {
      var saved := endpoints;
      var own := OwnIds(endpoints, device);
      if statuses == map[] {
        return Err(Incomplete);
      }
      assert statuses.Keys != {};
      if own == {} {
        return Err(NotFound);
      }
      assert |statuses| == |statuses.Keys|;
      if |statuses| != |own| {
        return Err(Incomplete);
      }
      var rest := statuses.Keys;
      var online := false;
      while rest != {}
        invariant rest <= statuses.Keys && forall id | id in statuses && id !in rest :: id in own
        invariant endpoints == map id | id in saved ::
                    if id in statuses && id !in rest then ProbedRow(saved[id], statuses[id], now) else saved[id]
        invariant online <==> exists id :: id in statuses && id !in rest && statuses[id]
        decreases rest
      {
        var id :| id in rest;
        rest := rest - {id};
        if id !in endpoints || endpoints[id].device != device {
          assert id !in own;
          endpoints := saved;
          return Err(UnknownEndpoint);
        }
        online := online || statuses[id];
        endpoints := endpoints[id := ProbedRow(endpoints[id], statuses[id], now)];
      }
      SameSize(statuses.Keys, own);
      return Ok(online);
    }
  }

  function OwnIds(t: Table, device: nat): set<nat> {
    set id | id in t && t[id].device == device
  }

  function ProbedRow(row: Row, verified: bool, now: int): Row {
    row.(status := if verified then Verified else VerificationFailed,
         verifiedAt := if verified then Some(now) else row.verifiedAt)
  }

  function Probed(t: Table, statuses: map<nat, bool>, now: int): Table {
    map id | id in t :: if id in statuses then ProbedRow(t[id], statuses[id], now) else t[id]
  }

  lemma {:induction false} SameSize(a: set<nat>, b: set<nat>)
    requires a <= b && |a| == |b|
    ensures a == b
  {
    if a != {} {
      var x :| x in a;
      SameSize(a - {x}, b - {x});
    }
  }

  lemma KeptOneMore(t: Table, device: nat, entries: seq<Entry>, n: nat)
    requires n < |entries|
    ensures KeptIds(t, device, entries[..n + 1]) ==
            KeptIds(t, device, entries[..n]) + if Keeps(t, device, entries[n]) then {entries[n].id.value} else {}
  {
    var more, less := entries[..n + 1], entries[..n];
    forall id ensures id in KeptIds(t, device, more) <==>
                      id in KeptIds(t, device, less) || (Keeps(t, device, entries[n]) && id == entries[n].id.value)
    {
      if id in KeptIds(t, device, more) {
        var i :| 0 <= i < n + 1 && Keeps(t, device, more[i]) && more[i].id.value == id;
        if i < n {
          assert less[i] == more[i];
        }
      }
      if id in KeptIds(t, device, less) {
        var i :| 0 <= i < n && Keeps(t, device, less[i]) && less[i].id.value == id;
        assert more[i] == less[i];
      }
      assert more[n] == entries[n];
    }
  }

  lemma PutNone(t: Table, device: nat)
    ensures PutAll(t, device, [], []) == Some(t)
  {
  }

  lemma PutOneMore(t: Table, device: nat, entries: seq<Entry>, drawn: seq<nat>, n: nat)
    requires n < |entries| == |drawn| && PutAll(t, device, entries[..n], drawn[..n]).Some?
    ensures PutAll(t, device, entries[..n + 1], drawn[..n + 1]) ==
            Put(PutAll(t, device, entries[..n], drawn[..n]).value, device, entries[n], drawn[n])
  {
    assert entries[..n + 1][..n] == entries[..n] && drawn[..n + 1][..n] == drawn[..n];
  }

  lemma {:induction false} PutFails(t: Table, device: nat, entries: seq<Entry>, drawn: seq<nat>, n: nat)
    requires n <= |entries| == |drawn| && PutAll(t, device, entries[..n], drawn[..n]).None?
    ensures PutAll(t, device, entries, drawn).None?
    decreases |entries|
  {
    hide Put;
    if n == |entries| {
      assert entries[..n] == entries && drawn[..n] == drawn;
    } else {
      var m := |entries| - 1;
      assert entries[..m][..n] == entries[..n] && drawn[..m][..n] == drawn[..n];
      PutFails(t, device, entries[..m], drawn[..m], n);
    }
  }
}
