/**
 * Provider profiles live in the database, their credentials in another store. Each operation that changes both
 * compensates in the store when its transaction rolls back.
 */
module Providers {
  import opened Results

  type Id = nat
  type Secret = string

  datatype Kind = OpenAi | Gemini | Anthropic | DeepSeek | Kimi | Ollama | LmStudio
  datatype Operation = TextLearning | VisionLearning | StructuredPageAnalysis
  datatype Support = Supported | Unknown | Unsupported

  /** What the embedded registry says of a model. */
  type Registry = (Kind, string, Operation) -> Support

  /** `createdAt` is the rank of the stored text in the order SQL gives it. */
  datatype Profile = Profile(kind: Kind, displayName: string, model: string, contextTokens: nat, isActive: bool,
                             createdAt: nat,
                             updatedAt: nat, validatedAt: Option<nat>, region: Option<string>, localVision: bool)

  datatype Db = Db(profiles: map<Id, Profile>, legacyActive: Option<Id>, learning: Option<Id>, vision: Option<Id>)

  /** Both stores; the credential key of a profile is its id. */
  datatype State = State(secrets: map<Id, Secret>, db: Db)

  predicate IsLocal(kind: Kind) {
    kind == Ollama || kind == LmStudio
  }

  predicate Supports(registry: Registry, p: Profile, op: Operation) {
    if IsLocal(p.kind) then
      op == TextLearning || (op == VisionLearning && p.kind == Ollama && p.localVision && p.validatedAt.Some?)
    else match registry(p.kind, p.model, op)
      case Supported => true
      case Unknown => op == TextLearning && p.validatedAt.Some?
      case Unsupported => false
  }

  // ----- the first compatible profile

  predicate Before(profiles: map<Id, Profile>, a: Id, b: Id)
    requires a in profiles && b in profiles
  {
    profiles[a].createdAt < profiles[b].createdAt || (profiles[a].createdAt == profiles[b].createdAt && a < b)
  }

  predicate IsFirst(registry: Registry, profiles: map<Id, Profile>, op: Operation, id: Id) {
    && id in profiles && Supports(registry, profiles[id], op)
    && forall other | other in profiles && other != id && Supports(registry, profiles[other], op) ::
         Before(profiles, id, other)
  }

  /** The compatible profile created first, the lower id deciding ties. */
  ghost function First(registry: Registry, profiles: map<Id, Profile>, op: Operation): Option<Id> {
    if id :| IsFirst(registry, profiles, op, id) then Some(id) else None
  }

  predicate InOrder(profiles: map<Id, Profile>, ids: seq<Id>) {
    (forall i | 0 <= i < |ids| :: ids[i] in profiles)
    && forall i, j | 0 <= i < j < |ids| :: Before(profiles, ids[i], ids[j])
  }

  method Earliest(profiles: map<Id, Profile>, ids: set<Id>) returns (least: Id)
    requires ids != {} && ids <= profiles.Keys
    ensures least in ids && forall id | id in ids && id != least :: Before(profiles, least, id)
  {
    least :| least in ids;
    var rest := ids - {least};
    while rest != {}
      invariant rest <= ids && least in ids - rest
      invariant forall id | id in ids - rest && id != least :: Before(profiles, least, id)
      decreases |rest|
    {
      var id :| id in rest;
      rest := rest - {id};
      if Before(profiles, id, least) {
        ghost var was := least;
        least := id;
        forall k | k in ids - rest && k != least ensures Before(profiles, least, k) {
          if k != was { assert Before(profiles, was, k); }
        }
      }
    }
  }

  /** `ORDER BY created_at, id`. */
  method SelectOrdered(profiles: map<Id, Profile>) returns (ids: seq<Id>)
    ensures InOrder(profiles, ids)
    ensures forall id :: id in ids <==> id in profiles
  {
    ids := [];
    var rest := profiles.Keys;
    while rest != {}
      invariant rest <= profiles.Keys
      invariant forall id :: id in ids <==> id in profiles.Keys - rest
      invariant InOrder(profiles, ids)
      invariant forall a, b | a in ids && b in rest :: Before(profiles, a, b)
      decreases |rest|
    {
      var least := Earliest(profiles, rest);
      rest := rest - {least};
      ids := ids + [least];
    }
  }

  method FirstCompatibleProfile(registry: Registry, profiles: map<Id, Profile>, op: Operation)
    returns (first: Option<Id>)
    ensures first == First(registry, profiles, op)
    ensures first == None <==> forall id | id in profiles :: !Supports(registry, profiles[id], op)
    ensures first.Some? ==> first.value in profiles && Supports(registry, profiles[first.value], op)
    ensures first.Some? ==>
              var p := profiles[first.value];
              forall other | other in profiles && other != first.value && Supports(registry, profiles[other], op) ::
                p.createdAt < profiles[other].createdAt
                  || (p.createdAt == profiles[other].createdAt && first.value < other)
  {
    var ids := SelectOrdered(profiles);
    for i := 0 to |ids|
      invariant forall k | 0 <= k < i :: !Supports(registry, profiles[ids[k]], op)
    {
      if Supports(registry, profiles[ids[i]], op) {
        FirstIs(registry, profiles, op, ids, i);
        return Some(ids[i]);
      }
    }
    return None;
  }

  lemma FirstIs(registry: Registry, profiles: map<Id, Profile>, op: Operation, ids: seq<Id>, i: nat)
    requires InOrder(profiles, ids) && forall id :: id in ids <==> id in profiles
    requires i < |ids| && Supports(registry, profiles[ids[i]], op)
    requires forall k | 0 <= k < i :: !Supports(registry, profiles[ids[k]], op)
    ensures First(registry, profiles, op) == Some(ids[i])
  {
    forall other | other in profiles && other != ids[i] && Supports(registry, profiles[other], op)
      ensures Before(profiles, ids[i], other)
    {
      var k :| 0 <= k < |ids| && ids[k] == other;
    }
    assert IsFirst(registry, profiles, op, ids[i]);
  }

  // ----- defaults

  function ClearActive(profiles: map<Id, Profile>): map<Id, Profile> {
    map id | id in profiles :: profiles[id].(isActive := false)
  }

  /** One profile active and named in both settings, or none. */
  function WithLearningDefault(db: Db, id: Option<Id>): Db
    requires id.Some? ==> id.value in db.profiles
  {
    var cleared := ClearActive(db.profiles);
    var profiles := if id == None then cleared else cleared[id.value := cleared[id.value].(isActive := true)];
    Db(profiles, id, id, db.vision)
  }

  method SetLearningDefault(tx: Db, id: Option<Id>) returns (r: Result<Db>)
    ensures r == if id.Some? && id.value !in tx.profiles then Err(NotFound) else Ok(WithLearningDefault(tx, id))
  {
    var profiles := ClearActive(tx.profiles);
    if id.Some? {
      if id.value !in profiles {
        return Err(NotFound);
      }
      profiles := profiles[id.value := profiles[id.value].(isActive := true)];
    }
    r := Ok(tx.(profiles := profiles, legacyActive := id, learning := id));
  }

  /** The active profile, the legacy setting and the learning default name the same existing profile, or none. */
  predicate Consistent(db: Db) {
    && db.legacyActive == db.learning
    && (db.learning.Some? ==> db.learning.value in db.profiles)
    && (db.vision.Some? ==> db.vision.value in db.profiles)
    && forall id | id in db.profiles :: db.profiles[id].isActive <==> db.learning == Some(id)
  }

  // ----- the operations

  /** Which of an operation's steps fail; a transaction that fails at any point has changed nothing. */
  datatype Faults = Faults(read: bool, write: bool, database: bool, restore: bool)

  const NO_FAULTS := Faults(false, false, false, false)

  datatype Operator =
    | Insert(id: Id, profile: Profile, secret: Secret)
    | Replace(id: Id, kind: Kind, model: string, contextTokens: nat, validatedAt: nat, region: Option<string>,
              secret: Secret)
    | Delete(id: Id)
    | SetActive(id: Id)
    | SetDefault(id: Id, operation: Operation)
    | SaveLocal(id: Id, profile: Profile)

  /** New ids are random; a saved local model has a local kind, an inserted profile has none. */
  predicate Legal(s: State, op: Operator) {
    match op
    case Insert(id, p, _) => id !in s.db.profiles && id !in s.secrets && !IsLocal(p.kind)
    case SaveLocal(id, p) =>
      IsLocal(p.kind) && if id in s.db.profiles then SameModel(p, s.db.profiles[id]) else id !in s.secrets
    case _ => true
  }

  predicate SameModel(a: Profile, b: Profile) {
    a.kind == b.kind && a.model == b.model
  }

  function InsertProfile(db: Db, id: Id, p: Profile): Db {
    var tx := db.(profiles := db.profiles[id := p.(isActive := false)]);
    if db.learning == None then WithLearningDefault(tx, Some(id)) else tx
  }

  predicate Matches(db: Db, id: Id, kind: Kind, model: string) {
    id in db.profiles && db.profiles[id].kind == kind && db.profiles[id].model == model
  }

  function Revalidated(p: Profile, contextTokens: nat, validatedAt: nat, region: Option<string>): Profile {
    p.(contextTokens := contextTokens, updatedAt := validatedAt, validatedAt := Some(validatedAt), region := region)
  }

  predicate IsLearning(db: Db, id: Id) {
    id in db.profiles && (db.profiles[id].isActive || db.legacyActive == Some(id) || db.learning == Some(id))
  }

  ghost function DeleteProfile(registry: Registry, db: Db, id: Id): Db {
    var tx := db.(profiles := db.profiles - {id});
    var learned := if IsLearning(db, id) then WithLearningDefault(tx, FirstOf(registry, tx, TextLearning)) else tx;
    if db.vision == Some(id) then learned.(vision := FirstOf(registry, tx, StructuredPageAnalysis)) else learned
  }

  ghost function FirstOf(registry: Registry, db: Db, op: Operation): (first: Option<Id>)
    ensures first.Some? ==> first.value in db.profiles
  {
    First(registry, db.profiles, op)
  }

  function SaveLocalProfile(db: Db, id: Id, p: Profile): Db {
    var row := if id !in db.profiles then p.(isActive := false)
               else db.profiles[id].(contextTokens := p.contextTokens, updatedAt := p.updatedAt,
                                     validatedAt := p.validatedAt, localVision := p.localVision);
    db.(profiles := db.profiles[id := row])
  }

  /** Whether the operation is accepted when nothing fails. */
  predicate Accepted(registry: Registry, s: State, op: Operator) {
    match op
    case Insert(_, _, _) => true
    case Replace(id, kind, model, _, _, _, _) => id in s.secrets && Matches(s.db, id, kind, model)
    case Delete(id) => id in s.db.profiles && (IsLocal(s.db.profiles[id].kind) || id in s.secrets)
    case SetActive(id) => id in s.db.profiles
    case SetDefault(id, operation) => id in s.db.profiles && Supports(registry, s.db.profiles[id], operation)
    case SaveLocal(_, _) => true
  }

  /** The whole effect of an accepted operation on both stores. */
  ghost function Done(registry: Registry, s: State, op: Operator): State
    requires Accepted(registry, s, op)
  {
    match op
    case Insert(id, p, secret) => State(s.secrets[id := secret], InsertProfile(s.db, id, p))
    case Replace(id, _, _, tokens, at, region, secret) =>
      State(s.secrets[id := secret],
            s.db.(profiles := s.db.profiles[id := Revalidated(s.db.profiles[id], tokens, at, region)]))
    case Delete(id) =>
      State(if IsLocal(s.db.profiles[id].kind) then s.secrets else s.secrets - {id}, DeleteProfile(registry, s.db, id))
    case SetActive(id) => State(s.secrets, WithLearningDefault(s.db, Some(id)))
    case SetDefault(id, operation) =>
      State(s.secrets, if operation == TextLearning then WithLearningDefault(s.db, Some(id))
            else s.db.(vision := Some(id)))
    case SaveLocal(id, p) => State(s.secrets, SaveLocalProfile(s.db, id, p))
  }

  /** The credential store was changed, the transaction failed, and so did putting the credential back. */
  predicate Broken(s: State, op: Operator, f: Faults) {
    f.restore && !f.write &&
    match op
    case Insert(_, _, _) => f.database
    case Replace(id, kind, model, _, _, _, _) => id in s.secrets && !f.read
      && (f.database || !Matches(s.db, id, kind, model))
    case Delete(id) => id in s.db.profiles && !IsLocal(s.db.profiles[id].kind) && id in s.secrets && !f.read
      && f.database
    case _ => false
  }

  /** What the store keeps after a failed compensation. */
  function Leftover(s: State, op: Operator): map<Id, Secret> {
    match op
    case Insert(id, _, secret) => s.secrets[id := secret]
    case Replace(id, _, _, _, _, _, secret) => s.secrets[id := secret]
    case Delete(id) => s.secrets - {id}
    case _ => s.secrets
  }

  /** Whether some step the operation takes fails. */
  predicate Interrupted(s: State, op: Operator, f: Faults) {
    match op
    case Insert(_, _, _) => f.write || f.database
    case Replace(_, _, _, _, _, _, _) => f.read || f.write || f.database
    case Delete(id) => f.database || (id in s.db.profiles && !IsLocal(s.db.profiles[id].kind) && (f.read || f.write))
    case _ => f.database
  }

  ghost function Step(registry: Registry, s: State, op: Operator, f: Faults): State {
    if Broken(s, op, f) then State(Leftover(s, op), s.db)
    else if Accepted(registry, s, op) && !Interrupted(s, op, f) then Done(registry, s, op)
    else s
  }

  class ProviderService {
    var secrets: map<Id, Secret>
    var db: Db

    function Now(): State
      reads this
    {
      State(secrets, db)
    }

    method StoreSet(id: Id, secret: Secret, fails: bool) returns (ok: bool)
      modifies this`secrets
      ensures ok == !fails
      ensures secrets == if ok then old(secrets)[id := secret] else old(secrets)
    {
      ok := !fails;
      if ok {
        secrets := secrets[id := secret];
      }
    }

    method StoreDelete(id: Id, fails: bool) returns (ok: bool)
      modifies this`secrets
      ensures ok == !fails
      ensures secrets == if ok then old(secrets) - {id} else old(secrets)
    {
      ok := !fails;
      if ok {
        secrets := secrets - {id};
      }
    }

    /** On success, whether the new profile became the learning default. */
    method InsertValidatedProviderProfile(registry: Registry, id: Id, profile: Profile, secret: Secret, f: Faults)
      returns (r: Result<bool>)
      requires Legal(Now(), Insert(id, profile, secret))
      modifies this
      ensures Now() == Step(registry, old(Now()), Insert(id, profile, secret), f)
      ensures r.Ok? <==> !f.write && !f.database
      ensures r.Ok? ==> r.value == (old(db).learning == None)
      ensures Broken(old(Now()), Insert(id, profile, secret), f) ==> r == Err(CredentialStoreError)
    {
      var stored := StoreSet(id, secret, f.write);
      if !stored {
        return Err(CredentialStoreError);
      }
      if f.database {
        var cleaned := StoreDelete(id, f.restore);
        assert cleaned ==> secrets == old(secrets);
        return Err(if cleaned then DatabaseError else CredentialStoreError);
      }
      var becomesDefault := db.learning == None;
      var tx := db.(profiles := db.profiles[id := profile.(isActive := false)]);
      if becomesDefault {
        var chosen := SetLearningDefault(tx, Some(id));
        tx := chosen.value;
      }
      db := tx;
      r := Ok(becomesDefault);
    }

    method ReplaceValidatedProviderCredential(registry: Registry, id: Id, kind: Kind, model: string, contextTokens: nat,
                                              validatedAt: nat,
                                              region: Option<string>, secret: Secret, f: Faults) returns (r: Result<()>)
      modifies this
      ensures Now()
              == Step(registry, old(Now()), Replace(id, kind, model, contextTokens, validatedAt, region, secret), f)
      ensures r.Ok? <==> old(id in secrets && Matches(db, id, kind, model)) && !f.read && !f.write && !f.database
      ensures Broken(old(Now()), Replace(id, kind, model, contextTokens, validatedAt, region, secret), f) ==>
                r == Err(CredentialStoreError)
    {
      if f.read || id !in secrets {
        return Err(CredentialStoreError);
      }
      var previous := secrets[id];
      var stored := StoreSet(id, secret, f.write);
      if !stored {
        return Err(CredentialStoreError);
      }
      if f.database || !Matches(db, id, kind, model) {
        var restored := StoreSet(id, previous, f.restore);
        assert restored ==> secrets == old(secrets);
        return Err(if !restored then CredentialStoreError else if f.database then DatabaseError else NotFound);
      }
      db := db.(profiles := db.profiles[id := Revalidated(db.profiles[id], contextTokens, validatedAt, region)]);
      r := Ok(());
    }

    /** The transaction of a deletion: the row, then the defaults it leaves vacant. */
    method DeleteRow(registry: Registry, id: Id) returns (tx: Db)
      requires id in db.profiles
      ensures tx == DeleteProfile(registry, db, id)
    {
      var learning := db.profiles[id].isActive || db.legacyActive == Some(id) || db.learning == Some(id);
      var vision := db.vision == Some(id);
      tx := db.(profiles := db.profiles - {id});
      ghost var emptied := tx;
      if learning {
        var first := FirstCompatibleProfile(registry, tx.profiles, TextLearning);
        assert first == FirstOf(registry, emptied, TextLearning);
        var chosen := SetLearningDefault(tx, first);
        tx := chosen.value;
      }
      if vision {
        var first := FirstCompatibleProfile(registry, tx.profiles, StructuredPageAnalysis);
        ActiveChangesNoSupport(registry, emptied, tx, StructuredPageAnalysis);
        tx := tx.(vision := first);
      }
    }

    method DeleteProviderProfile(registry: Registry, id: Id, f: Faults) returns (r: Result<()>)
      modifies this
      ensures Now() == Step(registry, old(Now()), Delete(id), f)
      ensures r.Ok? <==>
                && id in old(db).profiles && !f.database
                && (!IsLocal(old(db).profiles[id].kind) ==> id in old(secrets) && !f.read && !f.write)
      ensures Broken(old(Now()), Delete(id), f) ==> r == Err(CredentialStoreError)
    {
      if id !in db.profiles {
        return Err(if f.database then DatabaseError else NotFound);
      }
      var previous := None;
      if !IsLocal(db.profiles[id].kind) {
        if f.read || id !in secrets {
          return Err(CredentialStoreError);
        }
        previous := Some(secrets[id]);
        var deleted := StoreDelete(id, f.write);
        if !deleted {
          return Err(CredentialStoreError);
        }
      }
      if f.database {
        if previous.Some? {
          var restored := StoreSet(id, previous.value, f.restore);
          if !restored {
            return Err(CredentialStoreError);
          }
        }
        assert secrets == old(secrets);
        return Err(DatabaseError);
      }
      db := DeleteRow(registry, id);
      r := Ok(());
    }

    method SetActiveProviderProfile(registry: Registry, id: Id, f: Faults) returns (r: Result<()>)
      modifies this`db
      ensures Now() == Step(registry, old(Now()), SetActive(id), f)
      ensures r.Ok? <==> id in old(db).profiles && !f.database
    {
      if f.database {
        return Err(DatabaseError);
      }
      var chosen := SetLearningDefault(db, Some(id));
      if chosen.Err? {
        return Err(chosen.error);
      }
      db := chosen.value;
      r := Ok(());
    }

    method SetDefaultProviderProfile(registry: Registry, id: Id, operation: Operation, f: Faults)
      returns (r: Result<()>)
      modifies this`db
      ensures Now() == Step(registry, old(Now()), SetDefault(id, operation), f)
      ensures r.Ok? <==> id in old(db).profiles && Supports(registry, old(db).profiles[id], operation) && !f.database
    {
      if f.database {
        return Err(DatabaseError);
      }
      if id !in db.profiles {
        return Err(NotFound);
      }
      if !Supports(registry, db.profiles[id], operation) {
        return Err(InvalidInput);
      }
      match operation {
        case TextLearning =>
          var chosen := SetLearningDefault(db, Some(id));
          db := chosen.value;
        case VisionLearning =>
          db := db.(vision := Some(id));
        case StructuredPageAnalysis =>
          db := db.(vision := Some(id));
      }
      r := Ok(());
    }
  }

  /** Moving the active mark does not change which profile is first. */
  lemma ActiveChangesNoSupport(registry: Registry, a: Db, b: Db, op: Operation)
    requires a.profiles.Keys == b.profiles.Keys
    requires forall id | id in a.profiles :: b.profiles[id].(isActive := false) == a.profiles[id].(isActive := false)
    ensures First(registry, a.profiles, op) == First(registry, b.profiles, op)
  {
    forall id | id in a.profiles
      ensures Supports(registry, a.profiles[id], op) == Supports(registry, b.profiles[id], op)
      ensures b.profiles[id].createdAt == a.profiles[id].createdAt
    {
      var one, other := a.profiles[id].(isActive := false), b.profiles[id].(isActive := false);
      assert Supports(registry, one, op) == Supports(registry, a.profiles[id], op);
      assert Supports(registry, other, op) == Supports(registry, b.profiles[id], op);
      assert one.createdAt == other.createdAt;
    }
    forall id ensures IsFirst(registry, a.profiles, op, id) == IsFirst(registry, b.profiles, op, id) {
      if id in a.profiles {
        forall other | other in a.profiles ensures Before(a.profiles, id, other) == Before(b.profiles, id, other) {}
      }
    }
    FirstUnique(registry, a.profiles, op);
  }

  lemma FirstUnique(registry: Registry, profiles: map<Id, Profile>, op: Operation)
    ensures forall a, b :: IsFirst(registry, profiles, op, a) && IsFirst(registry, profiles, op, b) ==> a == b
  {
    forall a, b | IsFirst(registry, profiles, op, a) && IsFirst(registry, profiles, op, b) ensures a == b {
      assert profiles[a].createdAt <= profiles[b].createdAt;
    }
  }

  // ----- what every operation keeps

  /** A replacement that changes nothing: the same credential, or a row that already says what it would say. */
  predicate Unnoticed(s: State, op: Operator) {
    && op.Replace? && op.id in s.secrets
    && (op.secret == s.secrets[op.id]
        || (Matches(s.db, op.id, op.kind, op.model)
            && Revalidated(s.db.profiles[op.id], op.contextTokens, op.validatedAt, op.region) == s.db.profiles[op.id]))
  }

  /**
   * All or nothing: an operation has its whole effect or none if and only if its compensation succeeds, or there is
   * nothing to notice.
   */
  lemma AllOrNothing(registry: Registry, s: State, op: Operator, f: Faults)
    requires Legal(s, op)
    ensures (Step(registry, s, op, f) == s || Step(registry, s, op, f) == Step(registry, s, op, NO_FAULTS))
            <==> !Broken(s, op, f) || Unnoticed(s, op)
  {
    if Broken(s, op, f) {
      var broken, done := Step(registry, s, op, f), Step(registry, s, op, NO_FAULTS);
      match op
      case Insert(id, _, _) =>
        assert id in broken.secrets && id !in s.secrets && id in done.db.profiles && id !in s.db.profiles;
      case Delete(id) =>
        assert id !in broken.secrets && id in s.secrets && id !in done.db.profiles && id in s.db.profiles;
      case Replace(id, kind, model, tokens, at, region, secret) =>
        ReplacedExactly(s, id, secret);
        if Matches(s.db, id, kind, model) {
          assert done.db.profiles[id] == Revalidated(s.db.profiles[id], tokens, at, region);
          if Revalidated(s.db.profiles[id], tokens, at, region) == s.db.profiles[id] {
            assert done.db.profiles == s.db.profiles;
          }
        } else {
          assert done == s;
        }
      case _ =>
    }
  }

  lemma ReplacedExactly(s: State, id: Id, secret: Secret)
    requires id in s.secrets
    ensures s.secrets[id := secret] == s.secrets <==> secret == s.secrets[id]
  {
    assert s.secrets[id := secret][id] == secret;
  }

  /** What a failed compensation leaves: the database as it was, and one credential that was not put back. */
  lemma BrokenLeaves(registry: Registry, s: State, op: Operator, f: Faults)
    requires Legal(s, op) && Broken(s, op, f)
    ensures Step(registry, s, op, f).db == s.db
    ensures Step(registry, s, op, f).secrets - {op.id} == s.secrets - {op.id}
    ensures op.id in Step(registry, s, op, f).secrets <==> !op.Delete?
  {
  }

  /**
   * Choosing a default makes any settings consistent, whatever was active before, and changes no profile but for its
   * mark.
   */
  lemma LearningDefaultConsistent(db: Db, id: Option<Id>)
    requires id.Some? ==> id.value in db.profiles
    requires db.vision.Some? ==> db.vision.value in db.profiles
    ensures var chosen := WithLearningDefault(db, id);
            && Consistent(chosen) && chosen.learning == id && chosen.vision == db.vision
            && chosen.profiles.Keys == db.profiles.Keys
            && forall p | p in db.profiles :: SameProfile(chosen.profiles[p], db.profiles[p])
  {
  }

  lemma DeleteConsistent(registry: Registry, db: Db, id: Id)
    requires Consistent(db) && id in db.profiles
    ensures Consistent(DeleteProfile(registry, db, id))
  {
    var tx := db.(profiles := db.profiles - {id});
    if IsLearning(db, id) {
      var first := FirstOf(registry, tx, TextLearning);
      if db.vision != Some(id) {
        LearningDefaultConsistent(tx, first);
      } else {
        LearningDefaultConsistent(tx.(vision := None), first);
      }
    }
  }

  /** Whatever fails, the settings go on naming one existing profile, or none. */
  lemma StepConsistent(registry: Registry, s: State, op: Operator, f: Faults)
    requires Consistent(s.db) && Legal(s, op)
    ensures Consistent(Step(registry, s, op, f).db)
  {
    if !Broken(s, op, f) && Accepted(registry, s, op) && !Interrupted(s, op, f) {
      match op
      case Delete(id) => DeleteConsistent(registry, s.db, id);
      case Insert(id, p, _) =>
      case _ =>
    }
  }

  /** Both rows agree but for the active mark. */
  predicate SameProfile(a: Profile, b: Profile) {
    a.(isActive := false) == b.(isActive := false)
  }

  /** A failed step leaves both stores as they were, unless what it had changed could not be put back. */
  lemma FailureLeavesAlone(registry: Registry, s: State, op: Operator, f: Faults)
    requires Legal(s, op)
    ensures f.database && !f.restore ==> Step(registry, s, op, f) == s
    ensures f.write && (op.Insert? || op.Replace? || (op.Delete? && Remote(s, op.id))) ==> Step(registry, s, op, f) == s
    ensures f.read && (op.Replace? || (op.Delete? && Remote(s, op.id))) ==> Step(registry, s, op, f) == s
    ensures f.database && (op.SetActive? || op.SetDefault? || op.SaveLocal?) ==> Step(registry, s, op, f) == s
    ensures !f.read && !f.write && !f.database && !f.restore ==>
              Step(registry, s, op, f) == Step(registry, s, op, NO_FAULTS)
  {
  }

  /**
   * A deleted profile leaves both stores and all settings; each default it held goes to the first compatible profile
   * left.
   */
  lemma DeletionEffect(registry: Registry, s: State, id: Id)
    requires Consistent(s.db)
    ensures var d, rest := Step(registry, s, Delete(id), NO_FAULTS), s.db.profiles - {id};
            if id !in s.db.profiles || (Remote(s, id) && id !in s.secrets) then d == s
            else
              && d.db.profiles.Keys == rest.Keys
              && (forall other | other in rest :: SameProfile(d.db.profiles[other], rest[other]))
              && d.secrets == (if Remote(s, id) then s.secrets - {id} else s.secrets)
              && d.db.learning
                 == (if s.db.learning == Some(id) then First(registry, rest, TextLearning) else s.db.learning)
              && d.db.vision
                 == (if s.db.vision == Some(id) then First(registry, rest, StructuredPageAnalysis) else s.db.vision)
              && d.db.learning != Some(id) && d.db.vision != Some(id)
  {
  }

  /** The first profile becomes the learning default; a later one leaves the default where it is. */
  lemma InsertionEffect(registry: Registry, s: State, id: Id, p: Profile, secret: Secret)
    requires Consistent(s.db) && Legal(s, Insert(id, p, secret))
    ensures var d := Step(registry, s, Insert(id, p, secret), NO_FAULTS);
            && d.db.learning == (if s.db.learning == None then Some(id) else s.db.learning)
            && d.db.vision == s.db.vision
            && id in d.db.profiles && SameProfile(d.db.profiles[id], p) && d.db.profiles - {id} == s.db.profiles
            && id in d.secrets && d.secrets[id] == secret && d.secrets - {id} == s.secrets
  {
    if s.db.learning == None {
      assert forall other | other in s.db.profiles :: s.db.profiles[other].(isActive := false) == s.db.profiles[other];
    }
  }

  /** A new credential for a profile of this kind and model: the row says when and for what it was validated. */
  lemma ReplacementEffect(registry: Registry, s: State, op: Operator)
    requires op.Replace?
    ensures var d := Step(registry, s, op, NO_FAULTS);
            if op.id in s.secrets && op.id in s.db.profiles
               && s.db.profiles[op.id].kind == op.kind && s.db.profiles[op.id].model == op.model
            then
              var p := s.db.profiles[op.id];
              var row := Profile(p.kind, p.displayName, p.model, op.contextTokens, p.isActive, p.createdAt,
                                 op.validatedAt, Some(op.validatedAt), op.region, p.localVision);
              d == State(s.secrets[op.id := op.secret],
                         Db(s.db.profiles[op.id := row], s.db.legacyActive, s.db.learning, s.db.vision))
            else d == s
  {
  }

  /** One profile is active and named in both learning settings; nothing else moved. */
  predicate Selected(db: Db, was: Db, id: Id) {
    && db.legacyActive == Some(id) && db.learning == Some(id) && db.vision == was.vision
    && db.profiles.Keys == was.profiles.Keys
    && forall p | p in was.profiles ::
         SameProfile(db.profiles[p], was.profiles[p]) && (db.profiles[p].isActive <==> p == id)
  }

  /** What making a profile active changes: the mark and both learning settings. */
  lemma SelectionEffect(registry: Registry, s: State, id: Id)
    ensures var d := Step(registry, s, SetActive(id), NO_FAULTS);
            d.secrets == s.secrets && if id in s.db.profiles then Selected(d.db, s.db, id) else d == s
  {
    if id in s.db.profiles { SelectedByDefault(s.db, id); }
  }

  /** What making a profile the default of an operation changes: as above for text, the vision setting alone else. */
  lemma DefaultEffect(registry: Registry, s: State, id: Id, operation: Operation)
    ensures var d := Step(registry, s, SetDefault(id, operation), NO_FAULTS);
            if id !in s.db.profiles || !Supports(registry, s.db.profiles[id], operation) then d == s
            else if operation == TextLearning then d.secrets == s.secrets && Selected(d.db, s.db, id)
            else d == State(s.secrets, Db(s.db.profiles, s.db.legacyActive, s.db.learning, Some(id)))
  {
    if id in s.db.profiles { SelectedByDefault(s.db, id); }
  }

  lemma SelectedByDefault(db: Db, id: Id)
    requires id in db.profiles
    ensures Selected(WithLearningDefault(db, Some(id)), db, id)
  {
  }

  predicate Remote(s: State, id: Id) {
    id in s.db.profiles && !IsLocal(s.db.profiles[id].kind)
  }

  /** A remote profile without a credential, or a credential without a remote profile. */
  predicate Mismatched(s: State, id: Id) {
    Remote(s, id) != (id in s.secrets)
  }

  lemma StepMismatch(registry: Registry, s: State, op: Operator, f: Faults, id: Id)
    requires Legal(s, op)
    ensures Mismatched(Step(registry, s, op, f), id) ==> Mismatched(s, id) || (Broken(s, op, f) && op.id == id)
  {
  }

  // ----- runs

  datatype Call = Call(op: Operator, faults: Faults)

  ghost predicate LegalRun(registry: Registry, s: State, calls: seq<Call>)
    decreases |calls|
  {
    calls != [] ==>
      Legal(s, calls[0].op) && LegalRun(registry, Step(registry, s, calls[0].op, calls[0].faults), calls[1..])
  }

  ghost function Run(registry: Registry, s: State, calls: seq<Call>): State
    decreases |calls|
  {
    if calls == [] then s else Run(registry, Step(registry, s, calls[0].op, calls[0].faults), calls[1..])
  }

  /** The ids whose compensation failed somewhere in the run. */
  ghost function BrokenIds(registry: Registry, s: State, calls: seq<Call>): set<Id>
    decreases |calls|
  {
    if calls == [] then {}
    else (if Broken(s, calls[0].op, calls[0].faults) then {calls[0].op.id} else {})
         + BrokenIds(registry, Step(registry, s, calls[0].op, calls[0].faults), calls[1..])
  }

  /** Over any run, with any failures, only ids whose compensation failed can lose step with the other store. */
  lemma {:induction false} RunKeepsStoresTogether(registry: Registry, s: State, calls: seq<Call>)
    requires Consistent(s.db) && LegalRun(registry, s, calls)
    ensures Consistent(Run(registry, s, calls).db)
    ensures forall id | Mismatched(Run(registry, s, calls), id) ::
              Mismatched(s, id) || id in BrokenIds(registry, s, calls)
    decreases |calls|
  {
    if calls != [] {
      var call := calls[0];
      var next := Step(registry, s, call.op, call.faults);
      StepConsistent(registry, s, call.op, call.faults);
      forall id ensures Mismatched(next, id) ==>
        Mismatched(s, id) || (Broken(s, call.op, call.faults) && call.op.id == id) {
        StepMismatch(registry, s, call.op, call.faults, id);
      }
      RunKeepsStoresTogether(registry, next, calls[1..]);
    }
  }

  /** A remote profile that lost its credential can be neither deleted nor given a new one, however the run goes on. */
  lemma {:induction false} StrandedForGood(registry: Registry, s: State, calls: seq<Call>, id: Id)
    requires LegalRun(registry, s, calls)
    requires Remote(s, id) && id !in s.secrets
    ensures Remote(Run(registry, s, calls), id) && id !in Run(registry, s, calls).secrets
    decreases |calls|
  {
    if calls != [] {
      var next := Step(registry, s, calls[0].op, calls[0].faults);
      assert Remote(next, id) && id !in next.secrets;
      StrandedForGood(registry, next, calls[1..], id);
    }
  }

  /** The failure that strands a profile: a deletion rolled back whose credential could not be put back. */
  lemma DeletionStrands(registry: Registry, s: State, id: Id, calls: seq<Call>)
    requires Remote(s, id) && id in s.secrets
    requires var f := Faults(false, false, true, true); LegalRun(registry, Step(registry, s, Delete(id), f), calls)
    ensures var after := Run(registry, Step(registry, s, Delete(id), Faults(false, false, true, true)), calls);
            Remote(after, id) && id !in after.secrets && !Accepted(registry, after, Delete(id))
  {
    StrandedForGood(registry, Step(registry, s, Delete(id), Faults(false, false, true, true)), calls, id);
  }
}
