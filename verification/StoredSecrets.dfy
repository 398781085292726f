/**
 What becomes of the passwords and keys that are typed for a device's endpoints: the references given back
 open to them, an empty password keeps the stored one, and which endpoints can be prepared at all.
 */
module StoredSecrets {
  import opened Outcomes
  import opened Text
  import opened CredentialVault

  /** The reference names row `k` of the vault, and the row opens. */
  predicate Names(rows: Rows, reference: string, k: string) {
    reference == "db://node/" + k && k in rows && rows[k].id == k
  }

  lemma {:induction false} TrimRightLeavesSome(s: string)
    requires s != "" && !IsSpace(s[0])
    ensures TrimRight(s) != ""
    decreases |s|
  {
    if |s| > 1 {
      TrimRightLeavesSome(s[..|s| - 1]);
    }
  }

  lemma NamedIsResolved(rows: Rows, reference: string, k: string)
    requires Names(rows, reference, k)
    ensures TrimSpace(reference) != "" && Resolved(rows, reference) == Some(rows[k])
  {
    assert reference[|PREFIX|..] == k && reference[..|PREFIX|] == PREFIX;
    assert reference[0] == 'd' && TrimLeft(reference) == reference;
    TrimRightLeavesSome(reference);
  }

  lemma ResolvedIsNamed(rows: Rows, reference: string)
    requires Resolved(rows, reference).Some?
    ensures Names(rows, reference, reference[|PREFIX|..])
  {
    assert reference == reference[..|PREFIX|] + reference[|PREFIX|..];
  }

  /** After a save the reference opens to what was typed. */
  lemma SavedSecretOpens(rows: Rows, endpointID: string, reference: string, username: string, password: string,
                         nonce: nat)
    requires TrimSpace(username) != "" && password != ""
    ensures var saved := NewSecret(rows, endpointID, reference, username, password, nonce);
      saved.Some? && saved.value.username == TrimSpace(username) && saved.value.password == password &&
      Resolved(rows[CredentialID(endpointID) := saved.value], PREFIX + CredentialID(endpointID)) == saved
  {
    hide TrimSpace, Resolved;
    var saved := NewSecret(rows, endpointID, reference, username, password, nonce);
    TrimTwice(username);
    NamedIsResolved(rows[CredentialID(endpointID) := saved.value], PREFIX + CredentialID(endpointID),
                    CredentialID(endpointID));
  }

  lemma TrimTwice(s: string)
    ensures TrimSpace(TrimSpace(s)) == TrimSpace(s)
  {
    hide TrimSpace;
    TrimSpaceTrims(s);
    TrimmedIsKept(TrimSpace(s));
  }

  /** An empty password takes over the one that the stored reference opens to, under the user name typed. */
  lemma EmptyPasswordKeepsTheStored(rows: Rows, k: string, endpointID: string, reference: string, username: string,
                                    nonce: nat)
    requires Names(rows, reference, k) && rows[k].password != "" && TrimSpace(username) != ""
    ensures NewSecret(rows, endpointID, reference, username, "", nonce) ==
            Some(Sealed(CredentialID(endpointID), nonce, TrimSpace(username), rows[k].password))
  {
    hide TrimSpace, Resolved;
    TrimTwice(username);
    NamedIsResolved(rows, reference, k);
  }

  /** There is nothing to save if and only if no password was typed and none is stored, for a user name typed. */
  lemma NothingToSaveExactlyWhen(rows: Rows, endpointID: string, reference: string, username: string,
                                 password: string, nonce: nat)
    requires TrimSpace(username) != ""
    ensures NewSecret(rows, endpointID, reference, username, password, nonce).None? <==>
            password == "" && !exists k :: Names(rows, reference, k) && rows[k].password != ""
  {
    hide TrimSpace, Resolved;
    TrimTwice(username);
    if k :| Names(rows, reference, k) && rows[k].password != "" {
      NamedIsResolved(rows, reference, k);
    }
    if Resolved(rows, reference).Some? {
      ResolvedIsNamed(rows, reference);
      NamedIsResolved(rows, reference, reference[|PREFIX|..]);
    }
  }

  /** Saving, then saving again under another user name with the password left empty, keeps the password. */
  lemma PasswordSurvivesAnEmptyOne(rows: Rows, endpointID: string, username: string, password: string, nonce: nat,
                                   renamed: string, nonce2: nat)
    requires TrimSpace(username) != "" && password != "" && TrimSpace(renamed) != ""
    ensures var saved := NewSecret(rows, endpointID, "", username, password, nonce);
      var id := CredentialID(endpointID);
      saved.Some? &&
      NewSecret(rows[id := saved.value], endpointID, "db://node/" + id, renamed, "", nonce2) ==
      Some(Sealed(id, nonce2, TrimSpace(renamed), password))
  {
    hide TrimSpace, Resolved, NewSecret;
    SavedSecretOpens(rows, endpointID, "", username, password, nonce);
    var id := CredentialID(endpointID);
    var rows1 := rows[id := NewSecret(rows, endpointID, "", username, password, nonce).value];
    assert rows1[id].id == id by { SecretHasId(rows, endpointID, "", username, password, nonce); }
    EmptyPasswordKeepsTheStored(rows1, id, endpointID, "db://node/" + id, renamed, nonce2);
  }

  lemma SecretHasId(rows: Rows, endpointID: string, reference: string, username: string, password: string, nonce: nat)
    ensures var saved := NewSecret(rows, endpointID, reference, username, password, nonce);
      saved.Some? ==> saved.value.id == CredentialID(endpointID)
  {
  }

  /***** Which endpoints can be prepared, and how they come out *****/

  /** The endpoint needs nothing, or its login is complete and its password or key can be had. */
  ghost predicate Preparable(hasVault: bool, rows: Rows, e: Endpoint, chance: Chance) {
    e.protocol != "ssh" || e.credential.None? ||
    (var c := e.credential.value;
     TrimSpace(c.username) != "" &&
     ((TrimSpace(c.way) == "password" && hasVault && !chance.writeFails &&
       (c.password != "" || exists k :: Names(rows, chance.currentReference, k) && rows[k].password != "")) ||
      (TrimSpace(c.way) == "key" && TrimSpace(c.keyPath) != "" && TrimSpace(c.keyPath)[0] == '/' &&
       chance.keyFileExists)))
  }

  lemma OneIsPreparedExactlyWhen(hasVault: bool, p: Prepared, e: Endpoint, chance: Chance)
    ensures PrepareOne(hasVault, p, e, chance).Ok? <==> Preparable(hasVault, p.rows, e, chance)
  {
    hide TrimSpace, NewSecret;
    if e.credential.Some? {
      var c := e.credential.value;
      if TrimSpace(c.username) != "" {
        NothingToSaveExactlyWhen(p.rows, Named(e, chance).id, chance.currentReference, c.username, c.password,
                                 chance.nonce);
      }
    }
  }

  /** A list is prepared if and only if each endpoint can be, with the vault as the ones before it leave it. */
  lemma {:induction false} ListIsPreparedExactlyWhen(hasVault: bool, rows: Rows, endpoints: seq<Endpoint>,
                                                     chances: seq<Chance>)
    requires |chances| == |endpoints|
    ensures Prepare(hasVault, rows, endpoints, chances).Ok? <==>
            forall i | 0 <= i < |endpoints| ::
              Prepare(hasVault, rows, endpoints[..i], chances[..i]).Ok? &&
              Preparable(hasVault, Prepare(hasVault, rows, endpoints[..i], chances[..i]).value.rows, endpoints[i],
                         chances[i])
  {
    hide PrepareOne, Preparable;
    if endpoints != [] {
      var n := |endpoints| - 1;
      var front, fates := endpoints[..n], chances[..n];
      ListIsPreparedExactlyWhen(hasVault, rows, front, fates);
      forall i | 0 <= i < n ensures front[..i] == endpoints[..i] && fates[..i] == chances[..i] {}
      if Prepare(hasVault, rows, front, fates).Ok? {
        OneIsPreparedExactlyWhen(hasVault, Prepare(hasVault, rows, front, fates).value, endpoints[n], chances[n]);
      }
    }
  }

  /** How an endpoint comes out: as it was without a login of its own, else with a reference in its place. */
  predicate ComesOutAs(e: Endpoint, chance: Chance, done: Endpoint) {
    if e.protocol != "ssh" || e.credential.None? then done == e
    else
      var c := e.credential.value;
      var id := if e.id == "" then chance.drawnID else e.id;
      done.id == id && done.isNew == (e.id == "" || e.isNew) && done.protocol == "ssh" && done.credential.None? &&
      done.username == TrimSpace(c.username) &&
      if TrimSpace(c.way) == "password" then
        done.authMethod == "password" && done.keyPath == "" && done.credentialRef == "db://node/ssh-" + id
      else
        done.authMethod == "key" && done.keyPath == TrimSpace(c.keyPath) &&
        done.credentialRef == "file://" + TrimSpace(c.keyPath)
  }

  lemma OneComesOut(hasVault: bool, p: Prepared, e: Endpoint, chance: Chance)
    requires PrepareOne(hasVault, p, e, chance).Ok?
    ensures var p1 := PrepareOne(hasVault, p, e, chance).value;
      |p1.endpoints| == |p.endpoints| + 1 && p1.endpoints[..|p.endpoints|] == p.endpoints &&
      ComesOutAs(e, chance, p1.endpoints[|p.endpoints|])
  {
    hide TrimSpace, NewSecret;
    assert forall id :: PREFIX + CredentialID(id) == "db://node/ssh-" + id;
  }

  lemma {:induction false} EndpointsComeOut(hasVault: bool, rows: Rows, endpoints: seq<Endpoint>,
                                            chances: seq<Chance>, i: nat)
    requires |chances| == |endpoints| && Prepare(hasVault, rows, endpoints, chances).Ok? && i < |endpoints|
    ensures var done := Prepare(hasVault, rows, endpoints, chances).value.endpoints;
      |done| == |endpoints| && ComesOutAs(endpoints[i], chances[i], done[i])
    decreases |endpoints|
  {
    hide PrepareOne, ComesOutAs;
    var n := |endpoints| - 1;
    PreparedRow(hasVault, rows, endpoints, chances, "");
    PreparedRow(hasVault, rows, endpoints[..n], chances[..n], "");
    OneComesOut(hasVault, Prepare(hasVault, rows, endpoints[..n], chances[..n]).value, endpoints[n], chances[n]);
    if i < n {
      EndpointsComeOut(hasVault, rows, endpoints[..n], chances[..n], i);
      var before := Prepare(hasVault, rows, endpoints[..n], chances[..n]).value.endpoints;
      assert Prepare(hasVault, rows, endpoints, chances).value.endpoints[..n][i] == before[i];
    }
  }

  /** A password typed for this endpoint, not typed over by a later entry for the same endpoint. */
  predicate LastTyped(hasVault: bool, endpoints: seq<Endpoint>, chances: seq<Chance>, i: nat)
    requires |chances| == |endpoints| && i < |endpoints|
  {
    var e := endpoints[i];
    e.protocol == "ssh" && e.credential.Some? && TrimSpace(e.credential.value.way) == "password" &&
    e.credential.value.password != "" &&
    forall j | i < j < |endpoints| ::
      !SavesTo(hasVault, endpoints[j], chances[j], CredentialID(Named(e, chances[i]).id))
  }

  lemma SealedNow(hasVault: bool, p: Prepared, e: Endpoint, chance: Chance)
    requires PrepareOne(hasVault, p, e, chance).Ok? && LastTyped(hasVault, [e], [chance], 0)
    ensures var id := CredentialID(Named(e, chance).id); var rows := PrepareOne(hasVault, p, e, chance).value.rows;
      id in rows && rows[id].id == id && rows[id].username == TrimSpace(e.credential.value.username) &&
      rows[id].password == e.credential.value.password
  {
    hide TrimSpace, Resolved;
    TrimTwice(e.credential.value.username);
  }

  lemma OthersStay(hasVault: bool, p: Prepared, e: Endpoint, chance: Chance, id: string)
    requires PrepareOne(hasVault, p, e, chance).Ok? && !SavesTo(hasVault, e, chance, id) && id in p.rows
    ensures var rows := PrepareOne(hasVault, p, e, chance).value.rows; id in rows && rows[id] == p.rows[id]
  {
    hide Classify, NewSecret;
  }

  lemma {:induction false} TypedIsSealed(hasVault: bool, rows: Rows, endpoints: seq<Endpoint>, chances: seq<Chance>,
                                         i: nat)
    requires |chances| == |endpoints| && i < |endpoints| && Prepare(hasVault, rows, endpoints, chances).Ok?
    requires LastTyped(hasVault, endpoints, chances, i)
    ensures var id := CredentialID(Named(endpoints[i], chances[i]).id);
      var rows1 := Prepare(hasVault, rows, endpoints, chances).value.rows;
      id in rows1 && rows1[id].id == id &&
      rows1[id].username == TrimSpace(endpoints[i].credential.value.username) &&
      rows1[id].password == endpoints[i].credential.value.password
    decreases |endpoints|
  {
    hide PrepareOne, SavesTo, CredentialID, Named, TrimSpace;
    var n := |endpoints| - 1;
    var p := Prepare(hasVault, rows, endpoints[..n], chances[..n]).value;
    if i == n {
      SealedNow(hasVault, p, endpoints[n], chances[n]);
    } else {
      assert forall j | 0 <= j < n :: endpoints[..n][j] == endpoints[j] && chances[..n][j] == chances[j];
      TypedIsSealed(hasVault, rows, endpoints[..n], chances[..n], i);
      OthersStay(hasVault, p, endpoints[n], chances[n], CredentialID(Named(endpoints[i], chances[i]).id));
    }
  }

  /** After a preparation the reference that an endpoint comes out with opens to the login typed for it. */
  lemma PreparedReferenceOpens(hasVault: bool, rows: Rows, endpoints: seq<Endpoint>, chances: seq<Chance>, i: nat)
    requires |chances| == |endpoints| && i < |endpoints| && Prepare(hasVault, rows, endpoints, chances).Ok?
    requires LastTyped(hasVault, endpoints, chances, i)
    ensures var p := Prepare(hasVault, rows, endpoints, chances).value;
      |p.endpoints| == |endpoints| &&
      var row := Resolved(p.rows, p.endpoints[i].credentialRef);
      row.Some? && row.value.username == TrimSpace(endpoints[i].credential.value.username) &&
      row.value.password == endpoints[i].credential.value.password
  {
    hide Prepare, Resolved, TrimSpace, SavesTo;
    EndpointsComeOut(hasVault, rows, endpoints, chances, i);
    TypedIsSealed(hasVault, rows, endpoints, chances, i);
    var id := CredentialID(Named(endpoints[i], chances[i]).id);
    var p := Prepare(hasVault, rows, endpoints, chances).value;
    assert p.endpoints[i].credentialRef == "db://node/" + id;
    NamedIsResolved(p.rows, p.endpoints[i].credentialRef, id);
  }
}
