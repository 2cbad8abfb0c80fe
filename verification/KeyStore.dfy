/** The durable key store (archon_search/key_manager.py, class `KeyStore`): the records of `keys.json`, every
    change made to them, and the read cache validated by file signature.

    A token is identified with its hash (the hash is injective), times are whole seconds, and ids and new
    tokens come from the caller. */
module KeyStore {
  import opened Options

  type Hash = nat

  datatype Status = Active | Revoked

  /** `id` is `None` for a synthetic record written from the TOML configuration. */
  datatype Record = Record(id: Option<string>, hash: Hash, expiresAt: Option<int>, status: Status)

  // ------------------------------------------------------------------ the operations, on values

  /** The filter of `active_keys`: a key is expired at the very instant of its deadline. */
  predicate IsActive(r: Record, t: int) {
    r.status == Active && (r.expiresAt.None? || r.expiresAt.value > t)
  }

  function ActiveKeys(records: seq<Record>, t: int): seq<Record> {
    if records == [] then []
    else if IsActive(records[0], t) then [records[0]] + ActiveKeys(records[1..], t)
    else ActiveKeys(records[1..], t)
  }

  predicate Managed(r: Record) {
    r.id.Some?
  }

  /** Index of the first managed, active record of `hash`, `|records|` when there is none. */
  function FindActive(records: seq<Record>, hash: Hash): (i: nat)
    ensures i <= |records|
    ensures i < |records| ==> Managed(records[i]) && records[i].hash == hash && records[i].status == Active
    ensures forall j | 0 <= j < i :: !(Managed(records[j]) && records[j].hash == hash && records[j].status == Active)
  {
    if records == [] then 0
    else if Managed(records[0]) && records[0].hash == hash && records[0].status == Active then 0
    else
      var i := 1 + FindActive(records[1..], hash);
      assert forall j | 1 <= j < i :: records[j] == records[1..][j - 1];
      i
  }

  predicate Seen(records: seq<Record>, hash: Hash) {
    exists i | 0 <= i < |records| :: Managed(records[i]) && records[i].hash == hash
  }

  /** One rotation of the default key: `token` replaces the current one. */
  datatype Rotation = Rotation(now: int, grace: nat, token: Hash, newId: string, graceId: string)

  /** The old key after the rotation: revoked, given a deadline, or, when it was never a managed record,
      synthesized with one. */
  function Retire(records: seq<Record>, current: Hash, r: Rotation): seq<Record> {
    var i := FindActive(records, current);
    if i < |records| then
      records[i := if r.grace == 0 then records[i].(status := Revoked)
                   else records[i].(expiresAt := Some(r.now + r.grace))]
    else if r.grace > 0 && !Seen(records, current) then
      records + [Record(Some(r.graceId), current, Some(r.now + r.grace), Active)]
    else records
  }

  /** `record_rotation` */
  function RecordRotation(records: seq<Record>, current: Hash, r: Rotation): seq<Record> {
    Retire(records, current, r) + [Record(Some(r.newId), r.token, None, Active)]
  }

  function FindId(records: seq<Record>, id: string): (i: nat)
    ensures i <= |records|
    ensures i < |records| ==> records[i].id == Some(id)
    ensures forall j | 0 <= j < i :: records[j].id != Some(id)
  {
    if records == [] || records[0].id == Some(id) then 0
    else
      var i := 1 + FindId(records[1..], id);
      assert forall j | 1 <= j < i :: records[j] == records[1..][j - 1];
      i
  }

  /** `revoke` of a known id; an unknown one is a `KeyError` and changes nothing. */
  function Revoke(records: seq<Record>, id: string): seq<Record> {
    var i := FindId(records, id);
    if i < |records| then records[i := records[i].(status := Revoked)] else records
  }

  function ManagedOnly(records: seq<Record>): seq<Record> {
    if records == [] then []
    else if Managed(records[0]) then [records[0]] + ManagedOnly(records[1..])
    else ManagedOnly(records[1..])
  }

  datatype Change =
    | Rotate(current: Hash, rotation: Rotation)
    | RevokeId(id: string)
    | Create(newId: string, hash: Hash, expiresAt: Option<int>)
    | LoadSynthetic(synthetic: seq<Record>)

  /** What a caller may pass: synthetic records have no id. */
  ghost predicate WellFormed(c: Change) {
    c.LoadSynthetic? ==> forall i | 0 <= i < |c.synthetic| :: !Managed(c.synthetic[i])
  }

  function Apply(records: seq<Record>, c: Change): seq<Record> {
    match c
    case Rotate(current, r) => RecordRotation(records, current, r)
    case RevokeId(id) => Revoke(records, id)
    case Create(id, hash, expires) => records + [Record(Some(id), hash, expires, Active)]
    case LoadSynthetic(synthetic) => ManagedOnly(records) + synthetic
  }

  /** The token a change issues. */
  function Issues(c: Change): Option<Hash> {
    match c
    case Rotate(_, r) => Some(r.token)
    case Create(_, hash, _) => Some(hash)
    case _ => None
  }

  // ------------------------------------------------------------------ a revoked key stays revoked

  /** The token is known as a managed key, and every managed record of it is revoked. */
  ghost predicate RevokedForGood(records: seq<Record>, hash: Hash) {
    && Seen(records, hash)
    && forall i | 0 <= i < |records| :: Managed(records[i]) && records[i].hash == hash ==> records[i].status == Revoked
  }

  lemma {:induction false} ManagedOnlySelects(records: seq<Record>)
    ensures forall r :: r in ManagedOnly(records) <==> r in records && Managed(r)
  {
    if records != [] {
      assert records == [records[0]] + records[1..];
      ManagedOnlySelects(records[1..]);
    }
  }

  /** No rotation (not even a retried one), revocation, creation or restart brings a revoked token back, as
      long as new tokens are new. */
  lemma ChangesKeepRevokedKeysRevoked(records: seq<Record>, c: Change, hash: Hash)
    requires RevokedForGood(records, hash) && WellFormed(c) && Issues(c) != Some(hash)
    ensures RevokedForGood(Apply(records, c), hash)
  {
    var after := Apply(records, c);
    var k :| 0 <= k < |records| && Managed(records[k]) && records[k].hash == hash;
    match c {
      case Rotate(current, r) =>
        var retired := Retire(records, current, r);
        assert Managed(after[k]) && after[k].hash == hash;
        forall i | 0 <= i < |after| && Managed(after[i]) && after[i].hash == hash ensures after[i].status == Revoked {
          assert i < |retired| && after[i] == retired[i];
          assert i < |records|;
        }
      case RevokeId(id) => assert Managed(after[k]) && after[k].hash == hash;
      case Create(_, _, _) => assert Managed(after[k]) && after[k].hash == hash;
      case LoadSynthetic(synthetic) =>
        ManagedOnlySelects(records);
        assert records[k] in after;
        forall i | 0 <= i < |after| && Managed(after[i]) && after[i].hash == hash ensures after[i].status == Revoked {
          assert after[i] in ManagedOnly(records) by {
            assert i < |ManagedOnly(records)|;
          }
          var j :| 0 <= j < |records| && records[j] == after[i];
        }
    }
  }

  ghost predicate IsHistory(states: seq<seq<Record>>, changes: seq<Change>) {
    && |states| == |changes| + 1
    && forall i | 0 <= i < |changes| :: WellFormed(changes[i]) && states[i + 1] == Apply(states[i], changes[i])
  }

  /** Over any later history that does not issue its token again, a revoked managed key is accepted only as a
      synthetic record of the configuration, which has no id to revoke. */
  lemma {:induction false} RevokedKeysNeverComeBack(states: seq<seq<Record>>, changes: seq<Change>, i: nat, k: nat,
                                                    hash: Hash, t: int)
    requires IsHistory(states, changes) && i <= k < |states| && RevokedForGood(states[i], hash)
    requires forall j | i <= j < k :: Issues(changes[j]) != Some(hash)
    ensures RevokedForGood(states[k], hash)
    ensures Accepted(states[k], hash, t) <==>
              exists n | 0 <= n < |states[k]| :: Synthetic(states[k][n], hash) && IsActive(states[k][n], t)
    decreases k
  {
    if i < k {
      RevokedKeysNeverComeBack(states, changes, i, k - 1, hash, t);
      ChangesKeepRevokedKeysRevoked(states[k - 1], changes[k - 1], hash);
    }
    AcceptedMeansActive(states[k], hash, t);
  }

  predicate Synthetic(r: Record, hash: Hash) {
    !Managed(r) && r.hash == hash
  }

  // ------------------------------------------------------------------ chains of rotations

  /** Successful rotations in a row, each retiring the token the one before issued. */
  function Chain(records: seq<Record>, current: Hash, rotations: seq<Rotation>): seq<Record>
    decreases |rotations|
  {
    if rotations == [] then records
    else Chain(RecordRotation(records, current, rotations[0]), rotations[0].token, rotations[1..])
  }

  ghost predicate Accepted(records: seq<Record>, hash: Hash, t: int) {
    exists r :: r in ActiveKeys(records, t) && r.hash == hash
  }

  ghost predicate Unknown(records: seq<Record>, hash: Hash) {
    forall i | 0 <= i < |records| :: records[i].hash != hash
  }

  /** Exactly one record of the token: managed, active, without a deadline. */
  ghost predicate Current(records: seq<Record>, hash: Hash) {
    exists i | 0 <= i < |records| ::
      && records[i].hash == hash && Managed(records[i]) && records[i].status == Active && records[i].expiresAt.None?
      && forall j | 0 <= j < |records| && j != i :: records[j].hash != hash
  }

  lemma {:induction false} ActiveKeysSelects(records: seq<Record>, t: int)
    ensures forall r :: r in ActiveKeys(records, t) <==> r in records && IsActive(r, t)
  {
    if records != [] {
      assert records == [records[0]] + records[1..];
      ActiveKeysSelects(records[1..], t);
    }
  }

  lemma AcceptedMeansActive(records: seq<Record>, hash: Hash, t: int)
    ensures Accepted(records, hash, t) <==>
              exists i | 0 <= i < |records| :: records[i].hash == hash && IsActive(records[i], t)
  {
    ActiveKeysSelects(records, t);
    if Accepted(records, hash, t) {
      var r :| r in ActiveKeys(records, t) && r.hash == hash;
      var i :| 0 <= i < |records| && records[i] == r;
    }
    if i :| 0 <= i < |records| && records[i].hash == hash && IsActive(records[i], t) {
      assert records[i] in ActiveKeys(records, t);
    }
  }

  /** The token being retired is accepted exactly inside its grace window. */
  predicate InGrace(r: Rotation, t: int) {
    r.grace > 0 && r.now + r.grace > t
  }

  /** Retiring finds a key to put in its grace window: a managed record that is not revoked, whatever its deadline,
      or none at all. */
  ghost predicate Retirable(records: seq<Record>, current: Hash) {
    FindActive(records, current) < |records| || !Seen(records, current)
  }

  /** A record other than the one a rotation retires. */
  ghost predicate AcceptedBesides(records: seq<Record>, current: Hash, t: int) {
    exists k | 0 <= k < |records| ::
        k != FindActive(records, current) && records[k].hash == current && IsActive(records[k], t)
  }

  /** One rotation of any store: the new token is accepted, the old one inside its grace if it could be retired, or
      through another record of it, and nothing else changes. */
  lemma OneRotation(records: seq<Record>, current: Hash, r: Rotation, hash: Hash, t: int)
    ensures var after := RecordRotation(records, current, r);
            Accepted(after, hash, t) <==>
              if hash == r.token then true
              else if hash == current
              then (Retirable(records, current) && InGrace(r, t)) || AcceptedBesides(records, current, t)
              else Accepted(records, hash, t)
  {
    var after := RecordRotation(records, current, r);
    AcceptedMeansActive(records, hash, t);
    AcceptedMeansActive(after, hash, t);
    if hash == r.token {
      assert after[|after| - 1].hash == hash && IsActive(after[|after| - 1], t);
    } else if hash == current {
      RetiredKey(records, current, r, t);
    } else {
      if k :| 0 <= k < |records| && records[k].hash == hash && IsActive(records[k], t) {
        assert after[k] == records[k];
      }
      if k :| 0 <= k < |after| && after[k].hash == hash && IsActive(after[k], t) {
        assert k < |records| && after[k] == records[k];
      }
    }
  }

  lemma RetiredKey(records: seq<Record>, current: Hash, r: Rotation, t: int)
    requires r.token != current
    ensures var after := RecordRotation(records, current, r);
            (exists k | 0 <= k < |after| :: after[k].hash == current && IsActive(after[k], t)) <==>
              (Retirable(records, current) && InGrace(r, t)) || AcceptedBesides(records, current, t)
  {
    var after := RecordRotation(records, current, r);
    var i := FindActive(records, current);
    if Retirable(records, current) && InGrace(r, t) {
      var at := if i < |records| then i else |records|;
      assert after[at].hash == current && IsActive(after[at], t);
    }
    if AcceptedBesides(records, current, t) {
      var k :| 0 <= k < |records| && k != i && records[k].hash == current && IsActive(records[k], t);
      assert after[k] == records[k];
    }
    if k :| 0 <= k < |after| && after[k].hash == current && IsActive(after[k], t) {
      if k < |records| && k != i {
        assert after[k] == records[k];
      } else {
        assert k == i || (i == |records| && k == |records|);
      }
    }
  }

  /** When a rotation brings back a key that is not accepted any more, an expired one say: exactly when it is the
      new token, or is retired again with an open grace while it has a managed record that is not revoked, or no
      managed record at all. */
  lemma WhenARotationBringsAKeyBack(records: seq<Record>, current: Hash, r: Rotation, hash: Hash, t: int)
    requires !Accepted(records, hash, t)
    ensures Accepted(RecordRotation(records, current, r), hash, t) <==>
              hash == r.token || (hash == current && Retirable(records, hash) && InGrace(r, t))
  {
    OneRotation(records, current, r, hash, t);
    AcceptedMeansActive(records, hash, t);
  }

  // ------------------------------------------------------------------ what is accepted

  /** A key is accepted exactly when an active record of it has no deadline or one that lies ahead. */
  lemma AcceptedKeysAreActive(records: seq<Record>, hash: Hash, t: int)
    ensures Accepted(records, hash, t) <==>
              exists r | r in records :: r.hash == hash && r.status == Active && r.expiresAt != Some(t)
                                         && (r.expiresAt.Some? ==> t < r.expiresAt.value)
  {
    ActiveKeysSelects(records, t);
  }

  /** A created key is accepted until its deadline, from then on only as it was before, and no other key changes. */
  lemma CreatedKeysAreAccepted(records: seq<Record>, id: string, created: Hash, expiresAt: Option<int>, hash: Hash,
                               t: int)
    ensures Accepted(Apply(records, Create(id, created, expiresAt)), hash, t) <==>
              (hash == created && (expiresAt.Some? ==> t < expiresAt.value)) || Accepted(records, hash, t)
  {
    var r := Record(Some(id), created, expiresAt, Active);
    var after := Apply(records, Create(id, created, expiresAt));
    assert after == records + [r] && r in after;
    AcceptedKeysAreActive(records, hash, t);
    AcceptedKeysAreActive(after, hash, t);
  }

  /** Revoking an id takes the first record with it out of what is accepted, and nothing else. */
  lemma RevokedRecordsAreNotAccepted(records: seq<Record>, id: string, i: nat, hash: Hash, t: int)
    requires i < |records| && records[i].id == Some(id) && forall j | 0 <= j < i :: records[j].id != Some(id)
    ensures Accepted(Apply(records, RevokeId(id)), hash, t) <==> Accepted(records[..i] + records[i + 1..], hash, t)
  {
    var after, others := Apply(records, RevokeId(id)), records[..i] + records[i + 1..];
    assert FindId(records, id) == i;
    assert after == records[..i] + [records[i].(status := Revoked)] + records[i + 1..];
    AcceptedKeysAreActive(after, hash, t);
    AcceptedKeysAreActive(others, hash, t);
  }

  lemma UnknownIdsRevokeNothing(records: seq<Record>, id: string)
    requires forall r | r in records :: r.id != Some(id)
    ensures Apply(records, RevokeId(id)) == records
  {
    assert FindId(records, id) == |records|;
  }

  /** A restart replaces what the configuration brought and keeps every managed key as it was. */
  lemma RestartsReplaceTheConfiguration(records: seq<Record>, synthetic: seq<Record>, hash: Hash, t: int)
    ensures Accepted(Apply(records, LoadSynthetic(synthetic)), hash, t) <==>
              || (exists r | r in records :: r.id.Some? && r.hash == hash && r.status == Active
                                             && (r.expiresAt.Some? ==> t < r.expiresAt.value))
              || Accepted(synthetic, hash, t)
  {
    var after := Apply(records, LoadSynthetic(synthetic));
    ManagedOnlySelects(records);
    AcceptedKeysAreActive(after, hash, t);
    AcceptedKeysAreActive(synthetic, hash, t);
  }

  /** It happens: a key that expired is rotated out once more, with a grace, and is accepted again. */
  lemma AnExpiredKeyComesBack()
    ensures var records := [Record(Some("a"), 7, Some(10), Active)];
            var again := Rotation(20, 5, 8, "b", "c");
            !Accepted(records, 7, 20) && Accepted(RecordRotation(records, 7, again), 7, 20)
  {
    var records := [Record(Some("a"), 7, Some(10), Active)];
    AcceptedMeansActive(records, 7, 20);
    WhenARotationBringsAKeyBack(records, 7, Rotation(20, 5, 8, "b", "c"), 7, 20);
    assert Managed(records[0]) && FindActive(records, 7) == 0;
  }

  /** A key of which the store holds one managed record without a deadline, or nothing, is accepted exactly inside
      its grace once it is retired. */
  lemma CurrentKeysAreRetired(records: seq<Record>, current: Hash, t: int)
    requires Unknown(records, current) || Current(records, current)
    ensures Retirable(records, current) && !AcceptedBesides(records, current, t)
  {
    if Current(records, current) {
      var k :| 0 <= k < |records| && records[k].hash == current && Managed(records[k]) && records[k].status == Active
          && records[k].expiresAt.None?
               && forall j | 0 <= j < |records| && j != k :: records[j].hash != current;
      assert FindActive(records, current) == k;
    }
  }

  lemma RotationMakesItsTokenCurrent(records: seq<Record>, current: Hash, r: Rotation)
    requires Unknown(records, r.token) && r.token != current
    ensures Current(RecordRotation(records, current, r), r.token)
  {
    var after := RecordRotation(records, current, r);
    assert after[|after| - 1].hash == r.token;
    forall j | 0 <= j < |after| - 1 ensures after[j].hash != r.token {
    }
  }

  /** The new tokens of a chain: unknown before it, and no two the same. */
  ghost predicate FreshTokens(records: seq<Record>, current: Hash, rotations: seq<Rotation>) {
    && (forall i | 0 <= i < |rotations| :: Unknown(records, rotations[i].token) && rotations[i].token != current)
    && (forall i, j | 0 <= i < j < |rotations| :: rotations[i].token != rotations[j].token)
  }

  /** The token that rotation `i` of a chain retires. */
  function Retired(current: Hash, rotations: seq<Rotation>, i: nat): Hash
    requires i <= |rotations|
  {
    if i == 0 then current else rotations[i - 1].token
  }

  /** The token was retired on the way and its grace window is open at `t`. */
  ghost predicate StillInGrace(current: Hash, rotations: seq<Rotation>, hash: Hash, t: int) {
    exists i | 0 <= i < |rotations| :: hash == Retired(current, rotations, i) && InGrace(rotations[i], t)
  }

  /** The token is none of the chain's. */
  ghost predicate Outside(current: Hash, rotations: seq<Rotation>, hash: Hash) {
    forall i | 0 <= i <= |rotations| :: hash != Retired(current, rotations, i)
  }

  /** The grace windows of a chain are the first one's and those of the rest. */
  lemma LinkChain(current: Hash, rotations: seq<Rotation>, hash: Hash, t: int)
    requires rotations != []
    ensures var token, rest := rotations[0].token, rotations[1..];
            && (StillInGrace(current, rotations, hash, t) <==>
                  (hash == current && InGrace(rotations[0], t)) || StillInGrace(token, rest, hash, t))
            && (Outside(current, rotations, hash) <==> hash != current && Outside(token, rest, hash))
  {
    var token, rest := rotations[0].token, rotations[1..];
    assert Retired(current, rotations, 0) == current;
    forall i | 0 <= i < |rotations| ensures Retired(token, rest, i) == Retired(current, rotations, i + 1) {
    }
    if i :| 0 <= i < |rotations| && hash == Retired(current, rotations, i) && InGrace(rotations[i], t) {
      assert i > 0 ==> hash == Retired(token, rest, i - 1) && InGrace(rest[i - 1], t);
    }
    if i :| 0 <= i < |rest| && hash == Retired(token, rest, i) && InGrace(rest[i], t) {
      assert hash == Retired(current, rotations, i + 1) && InGrace(rotations[i + 1], t);
    }
    if Outside(current, rotations, hash) {
      forall i | 0 <= i <= |rest| ensures hash != Retired(token, rest, i) {
        assert hash != Retired(current, rotations, i + 1);
      }
    }
    if hash != current && Outside(token, rest, hash) {
      forall i | 0 <= i <= |rotations| ensures hash != Retired(current, rotations, i) {
        assert i > 0 ==> hash != Retired(token, rest, i - 1);
      }
    }
  }

  /** The rest of a chain of fresh tokens is one, and does not bring the old current token back. */
  lemma RestIsFresh(records: seq<Record>, current: Hash, rotations: seq<Rotation>)
    requires rotations != [] && FreshTokens(records, current, rotations)
    ensures var r, rest := rotations[0], rotations[1..];
            FreshTokens(RecordRotation(records, current, r), r.token, rest) && Outside(r.token, rest, current)
  {
    var r, rest := rotations[0], rotations[1..];
    forall i | 0 <= i < |rest|
      ensures Unknown(RecordRotation(records, current, r), rest[i].token) && rest[i].token != r.token
      ensures rest[i].token != current
    {
      assert rest[i] == rotations[i + 1];
    }
    assert forall i | 0 <= i < |rest| :: rest[i] == rotations[i + 1];
    assert r.token != current;
    forall i | 0 <= i <= |rest| ensures current != Retired(r.token, rest, i) {
      assert i > 0 ==> rest[i - 1].token != current;
    }
  }

  /** After any chain of rotations, whatever their times and graces: the newest token is accepted, each token
      retired on the way exactly inside its own grace window, and every other key as before. */
  lemma {:induction false} ChainAcceptsTheNewestAndThoseInGrace(records: seq<Record>, current: Hash,
                                                                rotations: seq<Rotation>, hash: Hash, t: int)
    requires rotations != []
    requires Unknown(records, current) || Current(records, current)
    requires FreshTokens(records, current, rotations)
    ensures Accepted(Chain(records, current, rotations), hash, t) <==>
            || hash == rotations[|rotations| - 1].token
            || StillInGrace(current, rotations, hash, t)
            || (Outside(current, rotations, hash) && Accepted(records, hash, t))
    decreases |rotations|
  {
    var r, rest := rotations[0], rotations[1..];
    var after := RecordRotation(records, current, r);
    assert r.token != current;
    OneRotation(records, current, r, hash, t);
    CurrentKeysAreRetired(records, current, t);
    LinkChain(current, rotations, hash, t);
    RestIsFresh(records, current, rotations);
    if rest == [] {
      assert Outside(r.token, rest, hash) <==> hash != r.token by {
        assert Retired(r.token, rest, 0) == r.token;
      }
      assert Chain(records, current, rotations) == after;
    } else {
      RotationMakesItsTokenCurrent(records, current, r);
      ChainAcceptsTheNewestAndThoseInGrace(after, r.token, rest, hash, t);
      assert rest[|rest| - 1] == rotations[|rotations| - 1];
      assert Retired(r.token, rest, 0) == r.token && Retired(r.token, rest, |rest|) == rest[|rest| - 1].token;
    }
  }

  // ------------------------------------------------------------------ changes by the operator

  /** A created key has this token, or a revoked id belongs to it. */
  predicate Touches(records: seq<Record>, c: Change, hash: Hash) {
    match c
    case Create(_, created, _) => created == hash
    case RevokeId(id) => FindId(records, id) < |records| && records[FindId(records, id)].hash == hash
    case _ => true
  }

  /** Creating or revoking another key changes nothing about this one. */
  lemma OtherKeysAreLeftAlone(records: seq<Record>, c: Change, hash: Hash, t: int)
    requires !Touches(records, c, hash)
    ensures Accepted(Apply(records, c), hash, t) <==> Accepted(records, hash, t)
    ensures Unknown(records, hash) ==> Unknown(Apply(records, c), hash)
    ensures Current(records, hash) ==> Current(Apply(records, c), hash)
  {
    var after := Apply(records, c);
    AcceptedMeansActive(records, hash, t);
    AcceptedMeansActive(after, hash, t);
    assert forall k | 0 <= k < |records| && records[k].hash == hash :: after[k] == records[k];
    assert forall k | 0 <= k < |after| && after[k].hash == hash :: k < |records| && records[k] == after[k];
    if Current(records, hash) {
      var k :| 0 <= k < |records| && records[k].hash == hash && Managed(records[k]) && records[k].status == Active
          && records[k].expiresAt.None?
               && forall j | 0 <= j < |records| && j != k :: records[j].hash != hash;
      assert after[k] == records[k];
    }
  }

  // ------------------------------------------------------------------ the loops

  /** The body of `record_rotation` between the read and the write of the file. */
  method RotateRecords(records: seq<Record>, current: Hash, r: Rotation) returns (after: seq<Record>)
    ensures after == RecordRotation(records, current, r)
  {
    var found, seen := |records|, false;
    var i := 0;
    while i < |records|
      invariant 0 <= i <= |records| && found == |records|
      invariant forall j | 0 <= j < i ::
                  !(Managed(records[j]) && records[j].hash == current && records[j].status == Active)
      invariant seen <==> exists j | 0 <= j < i :: Managed(records[j]) && records[j].hash == current
    {
      if Managed(records[i]) && records[i].hash == current {
        seen := true;
        if records[i].status == Active {
          found := i;
          break;
        }
      }
      i := i + 1;
    }
    after := records;
    if found < |records| {
      if r.grace == 0 {
        after := after[found := after[found].(status := Revoked)];
      } else {
        after := after[found := after[found].(expiresAt := Some(r.now + r.grace))];
      }
    } else if r.grace > 0 && !seen {
      after := after + [Record(Some(r.graceId), current, Some(r.now + r.grace), Active)];
    }
    after := after + [Record(Some(r.newId), r.token, None, Active)];
  }

  datatype RevokeOutcome = UnknownId | AlreadyRevoked | NowRevoked

  /** The body of `revoke`: an unknown id is an error, an id that is revoked already is not written again. */
  method RevokeRecord(records: seq<Record>, id: string) returns (after: seq<Record>, outcome: RevokeOutcome)
    ensures after == Revoke(records, id)
    ensures outcome == UnknownId <==> forall i | 0 <= i < |records| :: records[i].id != Some(id)
    ensures outcome == NowRevoked <==> after != records
    ensures outcome != UnknownId ==>
              exists i | 0 <= i < |after| :: after[i].id == Some(id) && after[i].status == Revoked
  {
    for i := 0 to |records|
      invariant forall j | 0 <= j < i :: records[j].id != Some(id)
    {
      if records[i].id == Some(id) {
        if records[i].status == Revoked {
          assert records[i := records[i].(status := Revoked)] == records;
          return records, AlreadyRevoked;
        }
        after, outcome := records[i := records[i].(status := Revoked)], NowRevoked;
        assert after[i].id == Some(id) && after[i].status == Revoked;
        return;
      }
    }
    return records, UnknownId;
  }

  /** The loop of `active_keys`. */
  method ListActive(records: seq<Record>, now: int) returns (active: seq<Record>)
    ensures active == ActiveKeys(records, now)
  {
    active := [];
    for i := 0 to |records|
      invariant ActiveKeys(records, now) == active + ActiveKeys(records[i..], now)
    {
      assert records[i..][1..] == records[i + 1..];
      if records[i].status != Active {
        continue;
      }
      if records[i].expiresAt.Some? && records[i].expiresAt.value <= now {
        continue;
      }
      active := active + [records[i]];
    }
  }
}
