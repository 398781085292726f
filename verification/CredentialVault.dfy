/**
 SSH credentials of a device's endpoints: each password is sealed into the vault before the device is
 saved, and each save returns an undo step.  If anything fails later, the undo steps run from the last
 to the first.  Sealing is an injective constructor; nonces and new endpoint ids are inputs.
 */
module CredentialVault {
  import opened Outcomes
  import opened Text

  /** A row's nonce and ciphertext; only the row's own id opens it. */
  datatype Sealed = Sealed(id: string, nonce: nat, username: string, password: string)

  type Rows = map<string, Sealed>

  /** The closure that a save returns: write the old row back, or delete the row if there was none. */
  datatype Undo = Undo(id: string, prior: Option<Sealed>)

  datatype Credential = Credential(way: string, username: string, password: string, keyPath: string)

  datatype Endpoint = Endpoint(id: string, isNew: bool, protocol: string, credential: Option<Credential>,
                               credentialRef: string, authMethod: string, username: string, keyPath: string)

  /**
   What the outside contributes to one endpoint: the id drawn for it, the nonce, the reference that is
   stored for it, and whether the vault can be read and written at that moment.
   */
  datatype Chance = Chance(drawnID: string, nonce: nat, currentReference: string, keyFileExists: bool,
                           readFails: bool, writeFails: bool)

  datatype Error = NoUsername | VaultMissing | IncompletePassword | WriteFailed |
                   KeyPathNotAbsolute | KeyFileMissing | UnknownMethod

  /***** The vault *****/

  function Prior(rows: Rows, id: string): Option<Sealed> {
    if id in rows then Some(rows[id]) else None
  }

  function Undone(rows: Rows, u: Undo): Rows {
    if u.prior.Some? then rows[u.id := u.prior.value] else rows - {u.id}
  }

  /** From the last to the first. */
  function Unwound(rows: Rows, undos: seq<Undo>): Rows
    decreases |undos|
  {
    if undos == [] then rows else Unwound(Undone(rows, undos[|undos| - 1]), undos[..|undos| - 1])
  }

  const PREFIX: string := "db://node/"

  /** What the stored reference resolves to, if it is a row of the vault that opens. */
  function Resolved(rows: Rows, reference: string): Option<Sealed> {
    if |reference| >= |PREFIX| && reference[..|PREFIX|] == PREFIX && reference[|PREFIX|..] in rows &&
       rows[reference[|PREFIX|..]].id == reference[|PREFIX|..]
    then Some(rows[reference[|PREFIX|..]]) else None
  }

  function CredentialID(endpointID: string): string {
    "ssh-" + endpointID
  }

  /** The new row: a missing user name or password is taken over from what is stored. */
  function NewSecret(rows: Rows, endpointID: string, reference: string, username: string, password: string,
                     nonce: nat): Option<Sealed> {
    var current := if TrimSpace(reference) == "" then None else Resolved(rows, reference);
    var user := if TrimSpace(username) != "" then TrimSpace(username)
                else if current.Some? then current.value.username else "";
    var pass := if password != "" then password else if current.Some? then current.value.password else "";
    if TrimSpace(user) == "" || pass == "" then None else Some(Sealed(CredentialID(endpointID), nonce, user, pass))
  }

  /** What a later failure must put back for the row of one endpoint. */
  function UndoOf(rows: Rows, endpointID: string, chance: Chance): Undo {
    Undo(CredentialID(endpointID), if chance.readFails then None else Prior(rows, CredentialID(endpointID)))
  }

  class Server {
    var rows: Rows
    const hasVault: bool

    constructor (hasVault: bool)
      ensures rows == map[] && this.hasVault == hasVault
    {
      rows := map[];
      this.hasVault := hasVault;
    }

    method SaveSSH(endpointID: string, username: string, password: string,
                   chance: Chance) returns (r: Result<(string, Undo), Error>)
      modifies this`rows
      ensures var secret := NewSecret(old(rows), endpointID, chance.currentReference, username, password, chance.nonce);
        if secret.None? then r == Err(IncompletePassword) && rows == old(rows)
        else if chance.writeFails then r == Err(WriteFailed) && rows == old(rows)
        else rows == old(rows)[CredentialID(endpointID) := secret.value] &&
             r == Ok((PREFIX + CredentialID(endpointID), UndoOf(old(rows), endpointID, chance)))
    {
      var secret := NewSecret(rows, endpointID, chance.currentReference, username, password, chance.nonce);
      if secret.None? {
        return Err(IncompletePassword);
      }
      var id := CredentialID(endpointID);
      var prior := if chance.readFails then None else Prior(rows, id);
      if chance.writeFails {
        return Err(WriteFailed);
      }
      rows := rows[id := secret.value];
      return Ok((PREFIX + id, Undo(id, prior)));
    }

    method RunRollbacks(rollbacks: seq<Undo>)
      modifies this`rows
      ensures rows == Unwound(old(rows), rollbacks)
    {
      var index := |rollbacks|;
      assert rollbacks[..index] == rollbacks;
      while index > 0
        invariant 0 <= index <= |rollbacks|
        invariant Unwound(rows, rollbacks[..index]) == Unwound(old(rows), rollbacks)
      {
        index := index - 1;
        assert rollbacks[..index + 1][..index] == rollbacks[..index];
        var u := rollbacks[index];
        if u.prior.Some? {
          rows := rows[u.id := u.prior.value];
        } else {
          rows := rows - {u.id};
        }
      }
    }

    /**
     Either every credential is in place and the rollbacks of what was written are returned, or one
     endpoint fails and the rollbacks so far have been run.
     */
    method PrepareSSHCredentials(endpoints: seq<Endpoint>, chances: seq<Chance>)
      returns (r: Result<(seq<Endpoint>, seq<Undo>), Error>)
      requires |chances| == |endpoints|
      modifies this`rows
      ensures var p := Prepare(hasVault, old(rows), endpoints, chances);
        match p
        case Ok(prepared) => r == Ok((prepared.endpoints, prepared.undos)) && rows == prepared.rows
        case Err(failed) => r == Err(failed.error) && rows == Unwound(failed.done.rows, failed.done.undos)
    {
      hide NewSecret, Resolved, TrimSpace;
      var result: seq<Endpoint> := [];
      var rollbacks: seq<Undo> := [];
      for index := 0 to |endpoints|
        invariant Prepare(hasVault, old(rows), endpoints[..index], chances[..index]) ==
                  Ok(Prepared(rows, result, rollbacks))
      {
        assert endpoints[..index + 1][..index] == endpoints[..index] &&
               chances[..index + 1][..index] == chances[..index];
        var endpoint, chance := endpoints[index], chances[index];
        ghost var before := Prepared(rows, result, rollbacks);
        var step := Classify(hasVault, endpoint, chance);
        match step {
          case Fails(e) =>
            StopsAt(hasVault, old(rows), endpoints, chances, index);
            RunRollbacks(rollbacks);
            return Err(e);
          case Plain(done) =>
            result := result + [done];
          case Seals(named) =>
            var saved := SaveSSH(named.id, endpoint.credential.value.username, endpoint.credential.value.password,
                                 chance);
            if saved.Err? {
              StopsAt(hasVault, old(rows), endpoints, chances, index);
              RunRollbacks(rollbacks);
              return Err(saved.error);
            }
            result := result + [SealedEndpoint(named, saved.value.0)];
            rollbacks := rollbacks + [saved.value.1];
        }
      }
      assert endpoints[..|endpoints|] == endpoints && chances[..|endpoints|] == chances;
      return Ok((result, rollbacks));
    }
  }

  /***** The whole preparation as a function *****/

  /** What one endpoint needs: nothing more, a row in the vault, or it cannot be done. */
  datatype Need = Plain(done: Endpoint) | Seals(named: Endpoint) | Fails(error: Error)

  function Named(e: Endpoint, chance: Chance): Endpoint {
    if e.id == "" then e.(id := chance.drawnID, isNew := true) else e
  }

  function SealedEndpoint(e: Endpoint, reference: string): Endpoint
    requires e.credential.Some?
  {
    e.(credentialRef := reference, authMethod := "password", username := TrimSpace(e.credential.value.username),
       keyPath := "", credential := None)
  }

  predicate IsAbsolute(path: string) {
    path != "" && path[0] == '/'
  }

  function Classify(hasVault: bool, e: Endpoint, chance: Chance): (n: Need)
    ensures n.Seals? ==> e.credential.Some? && n.named == Named(e, chance) && hasVault
  {
    if e.protocol != "ssh" || e.credential.None? then Plain(e)
    else
      var c := e.credential.value;
      var way, path := TrimSpace(c.way), TrimSpace(c.keyPath);
      if TrimSpace(c.username) == "" then Fails(NoUsername)
      else if way == "password" then (if hasVault then Seals(Named(e, chance)) else Fails(VaultMissing))
      else if way == "key" then
        (if !IsAbsolute(path) then Fails(KeyPathNotAbsolute)
         else if !chance.keyFileExists then Fails(KeyFileMissing)
         else Plain(Named(e, chance).(credentialRef := "file://" + path, authMethod := "key",
                                     username := TrimSpace(c.username),
                                      keyPath := path, credential := None)))
      else Fails(UnknownMethod)
  }

  datatype Prepared = Prepared(rows: Rows, endpoints: seq<Endpoint>, undos: seq<Undo>)

  /** What went wrong, and what had been prepared by then. */
  datatype Stopped = Stopped(error: Error, done: Prepared)

  function PrepareOne(hasVault: bool, p: Prepared, e: Endpoint, chance: Chance): Result<Prepared, Stopped> {
    match Classify(hasVault, e, chance)
    case Fails(error) => Err(Stopped(error, p))
    case Plain(done) => Ok(p.(endpoints := p.endpoints + [done]))
    case Seals(named) =>
      var c := e.credential.value;
      match NewSecret(p.rows, named.id, chance.currentReference, c.username, c.password, chance.nonce)
      case None => Err(Stopped(IncompletePassword, p))
      case Some(secret) =>
        if chance.writeFails then Err(Stopped(WriteFailed, p))
        else Ok(Prepared(p.rows[CredentialID(named.id) := secret],
                         p.endpoints + [SealedEndpoint(named, PREFIX + CredentialID(named.id))],
                         p.undos + [UndoOf(p.rows, named.id, chance)]))
  }

  function Prepare(hasVault: bool, rows: Rows, endpoints: seq<Endpoint>,
                   chances: seq<Chance>): Result<Prepared, Stopped>
    requires |chances| == |endpoints|
  {
    if endpoints == [] then Ok(Prepared(rows, [], []))
    else
      var n := |endpoints| - 1;
      match Prepare(hasVault, rows, endpoints[..n], chances[..n])
      case Err(stopped) => Err(stopped)
      case Ok(p) => PrepareOne(hasVault, p, endpoints[n], chances[n])
  }

  lemma {:induction false} StopsAt(hasVault: bool, rows: Rows, endpoints: seq<Endpoint>, chances: seq<Chance>, n: nat)
    requires n < |endpoints| == |chances|
    requires Prepare(hasVault, rows, endpoints[..n + 1], chances[..n + 1]).Err?
    ensures Prepare(hasVault, rows, endpoints, chances) == Prepare(hasVault, rows, endpoints[..n + 1], chances[..n + 1])
    decreases |endpoints|
  {
    hide PrepareOne;
    if n + 1 == |endpoints| {
      assert endpoints[..n + 1] == endpoints && chances[..n + 1] == chances;
    } else {
      var m := |endpoints| - 1;
      assert endpoints[..m][..n + 1] == endpoints[..n + 1] && chances[..m][..n + 1] == chances[..n + 1];
      StopsAt(hasVault, rows, endpoints[..m], chances[..m], n);
    }
  }

  /***** What undoing restores *****/

  /** The first undo step of a row. */
  function First(undos: seq<Undo>, id: string): (r: Option<Undo>)
    ensures r.None? ==> forall i | 0 <= i < |undos| :: undos[i].id != id
    ensures r.Some? ==> exists i | 0 <= i < |undos| ::
              undos[i] == r.value && undos[i].id == id && forall j | 0 <= j < i :: undos[j].id != id
    decreases |undos|
  {
    if undos == [] then None
    else
      var n := |undos| - 1;
      var earlier := First(undos[..n], id);
      if earlier.Some? then earlier else if undos[n].id == id then Some(undos[n]) else None
  }

  lemma UnwoundOne(now: Rows, undos: seq<Undo>, u: Undo)
    ensures Unwound(now, undos + [u]) == Unwound(Undone(now, u), undos)
  {
    assert (undos + [u])[..|undos|] == undos;
  }

  lemma FirstOfMore(undos: seq<Undo>, u: Undo, id: string)
    ensures First(undos + [u], id) ==
            if First(undos, id).Some? then First(undos, id) else if u.id == id then Some(u) else None
  {
    assert (undos + [u])[..|undos|] == undos;
  }

  /** From the last to the first, it is the first undo step of a row that has the last word. */
  lemma {:induction false} UnwoundRow(now: Rows, undos: seq<Undo>, id: string)
    ensures Prior(Unwound(now, undos), id) ==
            if First(undos, id).Some? then First(undos, id).value.prior else Prior(now, id)
    decreases |undos|
  {
    if undos != [] {
      UnwoundRow(Undone(now, undos[|undos| - 1]), undos[..|undos| - 1], id);
    }
  }

  /**
   Undoing brings a vault back to `rows`, if it differs only in rows that have undo steps, exactly when the
   first undo step of each of these carries the row as it is in `rows`.
   */
  lemma UndoingRestoresExactlyWhen(rows: Rows, now: Rows, undos: seq<Undo>)
    requires forall id | First(undos, id).None? :: Prior(now, id) == Prior(rows, id)
    ensures Unwound(now, undos) == rows <==>
            forall id | First(undos, id).Some? :: First(undos, id).value.prior == Prior(rows, id)
  {
    hide Unwound, First;
    forall id ensures Prior(Unwound(now, undos), id) ==
                      if First(undos, id).Some? then First(undos, id).value.prior else Prior(now, id) {
      UnwoundRow(now, undos, id);
    }
    if forall id | First(undos, id).Some? :: First(undos, id).value.prior == Prior(rows, id) {
      SameRows(Unwound(now, undos), rows);
    }
  }

  lemma SameRows(a: Rows, b: Rows)
    requires forall id :: Prior(a, id) == Prior(b, id)
    ensures a == b
  {
    forall id ensures (id in a <==> id in b) && (id in a ==> a[id] == b[id]) {
      assert Prior(a, id) == Prior(b, id);
    }
  }

  /***** A preparation and its undo steps *****/

  /** The endpoint's password goes into this row of the vault. */
  predicate SavesTo(hasVault: bool, e: Endpoint, chance: Chance, id: string) {
    Classify(hasVault, e, chance).Seals? && CredentialID(Named(e, chance).id) == id
  }

  /** The position of the first endpoint that is saved to a row. */
  function FirstSave(hasVault: bool, endpoints: seq<Endpoint>, chances: seq<Chance>, id: string): (r: Option<nat>)
    requires |chances| == |endpoints|
    ensures r.Some? ==> r.value < |endpoints|
  {
    if endpoints == [] then None
    else
      var n := |endpoints| - 1;
      var earlier := FirstSave(hasVault, endpoints[..n], chances[..n], id);
      if earlier.Some? then earlier
      else if SavesTo(hasVault, endpoints[n], chances[n], id) then Some(n) else None
  }

  lemma {:induction false} FirstSaveIsFirst(hasVault: bool, endpoints: seq<Endpoint>, chances: seq<Chance>, id: string)
    requires |chances| == |endpoints|
    ensures var r := FirstSave(hasVault, endpoints, chances, id);
      (r.None? ==> forall i | 0 <= i < |endpoints| :: !SavesTo(hasVault, endpoints[i], chances[i], id)) &&
      (r.Some? ==> SavesTo(hasVault, endpoints[r.value], chances[r.value], id) &&
                   forall i | 0 <= i < r.value :: !SavesTo(hasVault, endpoints[i], chances[i], id))
  {
    hide SavesTo;
    if endpoints != [] {
      var n := |endpoints| - 1;
      FirstSaveIsFirst(hasVault, endpoints[..n], chances[..n], id);
      assert forall i | 0 <= i < n :: endpoints[..n][i] == endpoints[i] && chances[..n][i] == chances[i];
    }
  }

  /** What undoing the preparation of `endpoints` makes of a row that is `now` by then. */
  function Recovered(hasVault: bool, rows: Rows, endpoints: seq<Endpoint>, chances: seq<Chance>, id: string,
                     now: Option<Sealed>): Option<Sealed>
    requires |chances| == |endpoints|
  {
    var first := FirstSave(hasVault, endpoints, chances, id);
    if first.None? then now else if chances[first.value].readFails then None else Prior(rows, id)
  }

  lemma {:induction false} PreparedRow(hasVault: bool, rows: Rows, endpoints: seq<Endpoint>, chances: seq<Chance>,
                                       id: string)
    requires |chances| == |endpoints| && Prepare(hasVault, rows, endpoints, chances).Ok?
    ensures var p := Prepare(hasVault, rows, endpoints, chances).value;
      |p.endpoints| == |endpoints| &&
      (FirstSave(hasVault, endpoints, chances, id).None? ==>
         First(p.undos, id).None? && Prior(p.rows, id) == Prior(rows, id)) &&
      (FirstSave(hasVault, endpoints, chances, id).Some? ==>
         First(p.undos, id) == Some(Undo(id, Recovered(hasVault, rows, endpoints, chances, id, None))))
  {
    hide Classify, NewSecret, First, CredentialID;
    if endpoints == [] {
      NothingIsFirst(id);
    } else {
      var n := |endpoints| - 1;
      PreparedRow(hasVault, rows, endpoints[..n], chances[..n], id);
      var p := Prepare(hasVault, rows, endpoints[..n], chances[..n]).value;
      if Classify(hasVault, endpoints[n], chances[n]).Seals? {
        FirstOfMore(p.undos, UndoOf(p.rows, Named(endpoints[n], chances[n]).id, chances[n]), id);
      }
    }
  }

  lemma NothingIsFirst(id: string)
    ensures First([], id) == None
  {
  }

  lemma {:induction false} StopsAfter(hasVault: bool, rows: Rows, endpoints: seq<Endpoint>, chances: seq<Chance>)
    requires |chances| == |endpoints| && Prepare(hasVault, rows, endpoints, chances).Err?
    ensures var done := Prepare(hasVault, rows, endpoints, chances).error.done;
      var n := |done.endpoints|;
      n < |endpoints| && Prepare(hasVault, rows, endpoints[..n], chances[..n]) == Ok(done)
    decreases |endpoints|
  {
    hide PrepareOne;
    var m := |endpoints| - 1;
    if Prepare(hasVault, rows, endpoints[..m], chances[..m]).Err? {
      StopsAfter(hasVault, rows, endpoints[..m], chances[..m]);
      var n := |Prepare(hasVault, rows, endpoints, chances).error.done.endpoints|;
      assert endpoints[..m][..n] == endpoints[..n] && chances[..m][..n] == chances[..n];
    } else {
      PreparedRow(hasVault, rows, endpoints[..m], chances[..m], "");
      StopKeepsWhatIsDone(hasVault, Prepare(hasVault, rows, endpoints[..m], chances[..m]).value,
                          endpoints[m], chances[m]);
    }
  }

  lemma StopKeepsWhatIsDone(hasVault: bool, p: Prepared, e: Endpoint, chance: Chance)
    ensures PrepareOne(hasVault, p, e, chance).Err? ==> PrepareOne(hasVault, p, e, chance).error.done == p
  {
    hide Classify, NewSecret;
  }

  /** The row existed and could not be read when an endpoint was saved to it for the first time. */
  predicate UnreadAtFirst(hasVault: bool, rows: Rows, endpoints: seq<Endpoint>, chances: seq<Chance>, id: string)
    requires |chances| == |endpoints|
  {
    var first := FirstSave(hasVault, endpoints, chances, id);
    id in rows && first.Some? && chances[first.value].readFails
  }

  lemma UndoingPreparedRestoresExactlyWhen(hasVault: bool, rows: Rows, endpoints: seq<Endpoint>, chances: seq<Chance>)
    requires |chances| == |endpoints| && Prepare(hasVault, rows, endpoints, chances).Ok?
    ensures var p := Prepare(hasVault, rows, endpoints, chances).value;
      Unwound(p.rows, p.undos) == rows <==>
      forall id | id in rows :: !UnreadAtFirst(hasVault, rows, endpoints, chances, id)
  {
    hide Prepare, FirstSave, First, Unwound;
    var p := Prepare(hasVault, rows, endpoints, chances).value;
    forall id
      ensures First(p.undos, id).None? ==> Prior(p.rows, id) == Prior(rows, id)
      ensures First(p.undos, id).Some? ==> (First(p.undos, id).value.prior == Prior(rows, id) <==>
                                            !UnreadAtFirst(hasVault, rows, endpoints, chances, id))
      ensures UnreadAtFirst(hasVault, rows, endpoints, chances, id) ==> First(p.undos, id).Some?
    {
      PreparedRow(hasVault, rows, endpoints, chances, id);
    }
    UndoingRestoresExactlyWhen(rows, p.rows, p.undos);
  }

  /**
   If preparing fails at some position, the vault is what it was before - also when one endpoint occurs several
   times in the list - exactly when no row that existed went unread at its first save before that position.
   */
  lemma FailureRestoresExactlyWhen(hasVault: bool, rows: Rows, endpoints: seq<Endpoint>, chances: seq<Chance>)
    requires |chances| == |endpoints| && Prepare(hasVault, rows, endpoints, chances).Err?
    ensures var done := Prepare(hasVault, rows, endpoints, chances).error.done;
      var n := |done.endpoints|;
      n < |endpoints| &&
      (Unwound(done.rows, done.undos) == rows <==>
       forall id | id in rows :: !UnreadAtFirst(hasVault, rows, endpoints[..n], chances[..n], id))
  {
    hide Prepare, FirstSave, Unwound, UnreadAtFirst;
    StopsAfter(hasVault, rows, endpoints, chances);
    var n := |Prepare(hasVault, rows, endpoints, chances).error.done.endpoints|;
    UndoingPreparedRestoresExactlyWhen(hasVault, rows, endpoints[..n], chances[..n]);
  }

  /**
   If the caller runs the returned rollbacks later, a row that the preparation wrote is what it was before,
   or gone if it could not be read at its first save; every other row is what it is by then.
   */
  lemma RollbacksRestoreTheirRows(hasVault: bool, rows: Rows, endpoints: seq<Endpoint>, chances: seq<Chance>,
                                  later: Rows, id: string)
    requires |chances| == |endpoints| && Prepare(hasVault, rows, endpoints, chances).Ok?
    ensures var undos := Prepare(hasVault, rows, endpoints, chances).value.undos;
      Prior(Unwound(later, undos), id) == Recovered(hasVault, rows, endpoints, chances, id, Prior(later, id))
  {
    hide Prepare, Unwound, First, FirstSave;
    PreparedRow(hasVault, rows, endpoints, chances, id);
    UnwoundRow(later, Prepare(hasVault, rows, endpoints, chances).value.undos, id);
  }

  /** Undoing from the first to the last instead would leave the first of two saves of one row behind. */
  lemma ForwardOrderIsWrong(rows: Rows, id: string, first: Sealed, second: Sealed)
    requires Prior(rows, id) != Some(first)
    ensures var u0, u1 := Undo(id, Prior(rows, id)), Undo(id, Some(first));
      var written := rows[id := first][id := second];
      Unwound(written, [u0, u1]) == rows && Undone(Undone(written, u0), u1) != rows
  {
    var u0, u1 := Undo(id, Prior(rows, id)), Undo(id, Some(first));
    var written := rows[id := first][id := second];
    UnwoundOne(written, [u0], u1);
    UnwoundOne(Undone(written, u1), [], u0);
    assert [u0] + [u1] == [u0, u1] && [] + [u0] == [u0];
    assert Unwound(written, [u0, u1]) == Undone(Undone(written, u1), u0);
    SameRows(Undone(Undone(written, u1), u0), rows);
    assert Prior(Undone(Undone(written, u0), u1), id) == Some(first);
  }

  const SSH_LOGIN := Endpoint("1", false, "ssh", Some(Credential("password", "admin", "secret", "")), "", "", "", "")
  const NO_NAME := Endpoint("2", false, "ssh", Some(Credential("password", "", "secret", "")), "", "", "", "")
  const UNREAD := Chance("", 0, "", false, true, false)

  lemma LoginIsSealed()
    ensures Classify(true, SSH_LOGIN, UNREAD) == Seals(SSH_LOGIN) &&
            Classify(true, NO_NAME, UNREAD) == Fails(NoUsername)
    ensures TrimSpace("admin") == "admin" && TrimSpace("") == ""
  {
    TrimmedIsKept("admin");
    TrimmedIsKept("password");
    TrimmedIsKept("");
  }

  const LOGIN_SECRET := Sealed("ssh-1", 0, "admin", "secret")

  /** The vault after the first endpoint, and the undo step that will delete its row. */
  function AfterLogin(rows: Rows): Prepared {
    Prepared(rows["ssh-1" := LOGIN_SECRET], [SealedEndpoint(SSH_LOGIN, PREFIX + "ssh-1")], [Undo("ssh-1", None)])
  }

  lemma LoginIsPrepared(rows: Rows)
    ensures PrepareOne(true, Prepared(rows, [], []), SSH_LOGIN, UNREAD) == Ok(AfterLogin(rows))
    ensures PrepareOne(true, AfterLogin(rows), NO_NAME, UNREAD) == Err(Stopped(NoUsername, AfterLogin(rows)))
  {
    hide TrimSpace, Classify, Resolved, SealedEndpoint;
    LoginIsSealed();
    var done := AfterLogin(rows);
    assert CredentialID("1") == "ssh-1";
    assert NewSecret(rows, "1", "", "admin", "secret", 0) == Some(LOGIN_SECRET);
    assert [] + done.endpoints == done.endpoints && [] + done.undos == done.undos;
  }

  /** A failing run that loses a row: it could not be read when its endpoint was saved, and the next one fails. */
  lemma UnreadRowIsLost(rows: Rows)
    requires "ssh-1" in rows
    ensures var r := Prepare(true, rows, [SSH_LOGIN, NO_NAME], [UNREAD, UNREAD]);
      r.Err? && "ssh-1" !in Unwound(r.error.done.rows, r.error.done.undos)
  {
    hide PrepareOne;
    LoginIsPrepared(rows);
    var done := AfterLogin(rows);
    assert [SSH_LOGIN, NO_NAME][..1] == [SSH_LOGIN] && [UNREAD, UNREAD][..1] == [UNREAD];
    assert [SSH_LOGIN][..0] == [] && [UNREAD][..0] == [];
    assert Prepare(true, rows, [], []) == Ok(Prepared(rows, [], []));
    assert Prepare(true, rows, [SSH_LOGIN], [UNREAD]) == Ok(done);
    UnwoundRow(done.rows, done.undos, "ssh-1");
    assert done.undos[..0] == [];
  }
}
