/**
  The whole fleet: replicas that bootstrap, unlock, re-seal and restart, and workers on
  them that run key operations with whatever Root KEK their replica holds.
 */
module Cluster {
  import opened Bytes
  import opened Wrappers
  import opened KeyDb
  import Aead
  import Custody
  import KeyRuns

  /** Every primitive the fleet relies on. */
  datatype World = World(vault: Custody.Vault, crypto: KeyRuns.Crypto, policy: KeyRuns.Policy)

  ghost predicate Lawful(w: World) {
    Custody.LawfulVault(w.vault) && Aead.Lawful(w.crypto.gcm)
  }

  /** The laws can be met together. */
  lemma LawfulExists(keyAad: (string, nat) -> bytes, policy: KeyRuns.Policy) returns (w: World)
    ensures Lawful(w) && w.crypto.keyAad == keyAad && w.policy == policy
  {
    var g := Aead.LawfulExists();
    var vault := Custody.Vault((cred, kek, salt) => kek, (cred, envelope) => Some(envelope),
                              (salt, wrapped) => wrapped);
    w := World(vault, KeyRuns.Crypto(g, keyAad), policy);
  }

  datatype State = State(custody: Custody.System, keys: KeyRuns.State)

  datatype Event =
    | CustodyEvent(c: Custody.Event)
    | KeyEvent(replica: nat, k: KeyRuns.Event)

  function KekOf(s: State, replica: nat): Option<bytes> {
    if replica in s.custody.replicas then s.custody.replicas[replica].kek else None
  }

  function Step(w: World, s: State, e: Event): State {
    match e
    case CustodyEvent(c) => s.(custody := Custody.Step(w.vault, w.crypto.gcm, s.custody, c))
    case KeyEvent(r, k) => s.(keys := KeyRuns.Step(w.crypto, KekOf(s, r), w.policy, s.keys, k))
  }

  function Run(w: World, s: State, events: seq<Event>): State
    decreases |events|
  {
    if events == [] then s else Run(w, Step(w, s, events[0]), events[1..])
  }

  ghost predicate Inv(w: World, s: State) {
    && Custody.Inv(w.vault, w.crypto.gcm, s.custody)
    && KeyRuns.Inv(w.crypto, s.custody.root, w.policy, s.keys)
  }

  /**
    A database before any replica has started: fresh or legacy, with any key tables that
    fit the sealed Root KEK.
   */
  ghost predicate Initial(w: World, s: State) {
    && Custody.Initial(w.vault, s.custody)
    && s.keys.tasks == map[] && KeyRuns.Inv(w.crypto, s.custody.root, w.policy, s.keys)
  }

  /** An empty database is one, and so is any with exact version rows and counters within the limit. */
  lemma TablesAreInitial(w: World, custody: Custody.System, db: Db) returns (s: State)
    requires Custody.Initial(w.vault, custody) && Consistent(db)
    requires forall v :: v in db.versions ==> db.versions[v].usage == 0 || db.versions[v].usage <= w.policy.hard
    ensures Initial(w, s) && s.custody == custody && s.keys.db == db
    ensures db == NO_KEYS ==> s.keys == KeyRuns.START
  {
    hide KeyRuns.Inv;
    var keys := KeyRuns.OfTables(w.crypto, custody.root, w.policy, db);
    s := State(custody, keys);
  }

  lemma UnlockedHoldRoot(w: World, s: State, replica: nat)
    requires Inv(w, s) && KekOf(s, replica).Some?
    ensures KekOf(s, replica) == s.custody.root
  {
    assert Custody.ReplicaOk(w.vault, w.crypto.gcm, s.custody, s.custody.replicas[replica]);
  }

  /** The Root KEK that landed stays, keys do not come back, and version rows keep their secrets. */
  ghost predicate Continues(s: State, s': State) {
    && (s.custody.root.Some? ==> s'.custody.root == s.custody.root)
    && KeyRuns.Extends(s.keys, s'.keys)
  }

  lemma StepKeepsInv(w: World, s: State, e: Event)
    requires Lawful(w) && Inv(w, s)
    ensures Inv(w, Step(w, s, e)) && Continues(s, Step(w, s, e))
  {
    hide Custody.Inv, KeyRuns.Inv, Custody.Step, KeyRuns.Step, KeyRuns.Extends;
    match e {
      case CustodyEvent(c) =>
        KeyRuns.ExtendsSelf(s.keys, s.keys);
        Custody.StepKeepsInv(w.vault, w.crypto.gcm, s.custody, c);
        if s.custody.root.None? {
          KeyRuns.AnyRootFits(w.crypto, Custody.Step(w.vault, w.crypto.gcm, s.custody, c).root, w.policy, s.keys);
        }
      case KeyEvent(r, k) =>
        if KekOf(s, r).Some? {
          UnlockedHoldRoot(w, s, r);
        }
        KeyRuns.StepKeepsInv(w.crypto, KekOf(s, r), s.custody.root, w.policy, s.keys, k);
    }
  }

  lemma InitialInv(w: World, s: State)
    requires Initial(w, s)
    ensures Inv(w, s)
  {
    hide KeyRuns.Inv;
  }

  lemma ContinuesTransitive(w: World, s: State, s1: State, s2: State)
    requires Inv(w, s) && Continues(s, s1) && Continues(s1, s2)
    ensures Continues(s, s2)
  {
    hide KeyRuns.Inv, KeyRuns.Extends;
    KeyRuns.ExtendsTransitive(w.crypto, s.custody.root, w.policy, s.keys, s1.keys, s2.keys);
  }

  lemma ContinuesSelf(s: State)
    ensures Continues(s, s)
  {}

  lemma {:induction false} RunKeepsInv(w: World, s: State, events: seq<Event>)
    requires Lawful(w) && Inv(w, s)
    ensures Inv(w, Run(w, s, events)) && Continues(s, Run(w, s, events))
    decreases |events|
  {
    hide Inv, Step, Continues;
    if events == [] {
      ContinuesSelf(s);
    } else {
      var s1 := Step(w, s, events[0]);
      StepKeepsInv(w, s, events[0]);
      RunKeepsInv(w, s1, events[1..]);
      ContinuesTransitive(w, s, s1, Run(w, s, events));
    }
  }

  /** A run in two stretches. */
  lemma {:induction false} RunConcat(w: World, s: State, events: seq<Event>, more: seq<Event>)
    ensures Run(w, s, events + more) == Run(w, Run(w, s, events), more)
    decreases |events|
  {
    hide Step;
    if events == [] {
      assert events + more == more;
    } else {
      assert (events + more)[1..] == events[1..] + more;
      RunConcat(w, Step(w, s, events[0]), events[1..], more);
    }
  }

  lemma Reachable(w: World, s: State, events: seq<Event>)
    requires Lawful(w) && Initial(w, s)
    ensures Inv(w, Run(w, s, events))
  {
    hide Step, Inv;
    InitialInv(w, s);
    RunKeepsInv(w, s, events);
  }

  /** In every run the version rows of every key are exactly 1 to current, and only the current is active. */
  lemma VersionsStayExact(w: World, s: State, events: seq<Event>)
    requires Lawful(w) && Initial(w, s)
    ensures Consistent(Run(w, s, events).keys.db)
  {
    hide Step;
    Reachable(w, s, events);
  }

  /** In every run the nonce budget of every version is respected. */
  lemma BudgetIsKept(w: World, s: State, events: seq<Event>, v: VersionId)
    requires Lawful(w) && Initial(w, s)
    ensures var k := Run(w, s, events).keys; var slots := |KeyRuns.Slots(k, v)|;
      && KeyRuns.CountIssued(k.issued, v) <= slots
      && slots <= (if w.policy.hard >= 0 then w.policy.hard else 0)
      && (v in k.db.versions ==> k.db.versions[v].usage == slots)
      && multiset(k.warned)[v] <= 1
      && (v in k.db.versions && w.policy.soft >= 1 ==> (v in k.warned <==> k.db.versions[v].usage >= w.policy.soft))
  {
    hide Step, KeyRuns.Inv;
    Reachable(w, s, events);
    KeyRuns.NonceBudget(w.crypto, Run(w, s, events).custody.root, w.policy, Run(w, s, events).keys, v);
  }

  /** With the default limits, at most 2^32 ciphertexts under a version, and a counter that fits 64 bits. */
  lemma DefaultBudget(w: World, s: State, events: seq<Event>, v: VersionId)
    requires Lawful(w) && Initial(w, s) && w.policy == KeyRuns.DEFAULT_POLICY
    ensures var k := Run(w, s, events).keys;
      && KeyRuns.CountIssued(k.issued, v) <= 0x1_0000_0000
      && (v in k.db.versions ==> k.db.versions[v].usage < 0x8000_0000_0000_0000)
      && (v in k.db.versions ==> (v in k.warned <==> k.db.versions[v].usage >= 0x4000_0000))
  {
    hide Run, Initial, Lawful, KeyRuns.CountIssued, KeyRuns.Slots;
    BudgetIsKept(w, s, events, v);
  }

  /**
    In every run, any ciphertext ever handed out decrypts to its plaintext on any
    unlocked replica while its key exists and is enabled: across rotations, lifecycle
    changes, re-sealing of the Root KEK, and restarts.
   */
  lemma CiphertextsStayDecryptable(w: World, s: State, events: seq<Event>, i: nat, replica: nat)
    requires Lawful(w) && Initial(w, s)
    requires i < |Run(w, s, events).keys.issued| && KekOf(Run(w, s, events), replica).Some?
    requires var t := Run(w, s, events); var id := t.keys.issued[i].ticket.v.0;
      id in t.keys.db.keys && t.keys.db.keys[id].state == Enabled
    ensures var t := Run(w, s, events); var x := t.keys.issued[i];
      KeyRuns.Decrypt(w.crypto, KekOf(t, replica), t.keys.db, x.ticket.v.0, x.text, x.aad) == Ok(x.plain)
  {
    hide Step, KeyRuns.Decrypt;
    Reachable(w, s, events);
    var t := Run(w, s, events);
    UnlockedHoldRoot(w, t, replica);
    hide KeyRuns.Inv, Custody.Inv;
    KeyRuns.IssuedDecrypts(w.crypto, t.custody.root, w.policy, t.keys, i);
  }

  /** No event of the run makes the key usable. */
  ghost predicate NeverEnabled(w: World, s: State, events: seq<Event>, id: string) {
    forall k :: 0 <= k < |events| && events[k].KeyEvent? ==>
      !KeyRuns.Enables(Run(w, s, events[..k]).keys, events[k].k, id)
  }

  /**
    Once a key is disabled, pending or gone and the encryptions under it are through, no
    replica spends a slot of it or hands out a ciphertext until it is enabled again.
   */
  lemma {:induction false} QuietKeyStaysQuiet(w: World, s: State, events: seq<Event>, id: string)
    requires Lawful(w) && Inv(w, s) && KeyRuns.Quiet(s.keys, id) && NeverEnabled(w, s, events, id)
    ensures KeyRuns.Quiet(Run(w, s, events).keys, id)
    ensures KeyRuns.NothingSpent(s.keys, Run(w, s, events).keys, id)
  {
    hide Step, KeyRuns.Quiet, KeyRuns.Enables, KeyRuns.NothingSpent, KeyRuns.Step, Inv;
    if events == [] {
      SpentNothing(s, id);
    } else {
      var n := |events| - 1;
      var front, e := events[..n], events[n];
      forall k | 0 <= k < n && front[k].KeyEvent?
        ensures !KeyRuns.Enables(Run(w, s, front[..k]).keys, front[k].k, id)
      {
        assert front[..k] == events[..k];
      }
      QuietKeyStaysQuiet(w, s, front, id);
      RunKeepsInv(w, s, front);
      var before := Run(w, s, front);
      assert events == front + [e];
      RunConcat(w, s, front, [e]);
      OneStep(w, before, e);
      QuietEvent(w, before, e, id);
      KeyRuns.NothingSpentVia(s.keys, before.keys, Step(w, before, e).keys, id);
    }
  }

  lemma SpentNothing(s: State, id: string)
    ensures KeyRuns.NothingSpent(s.keys, s.keys, id)
  {}

  lemma OneStep(w: World, s: State, e: Event)
    ensures Run(w, s, [e]) == Step(w, s, e)
  {
    hide Step;
    assert [e][1..] == [];
    assert Run(w, Step(w, s, e), []) == Step(w, s, e);
  }

  lemma QuietEvent(w: World, s: State, e: Event, id: string)
    requires Inv(w, s) && KeyRuns.Quiet(s.keys, id) && (e.KeyEvent? ==> !KeyRuns.Enables(s.keys, e.k, id))
    ensures KeyRuns.Quiet(Step(w, s, e).keys, id) && KeyRuns.NothingSpent(s.keys, Step(w, s, e).keys, id)
  {
    hide KeyRuns.Quiet, KeyRuns.Enables, KeyRuns.NothingSpent, KeyRuns.Step, Custody.Step;
    if e.KeyEvent? {
      KeyRuns.QuietStep(w.crypto, KekOf(s, e.replica), w.policy, s.keys, e.k, id);
    } else {
      SpentNothing(s, id);
    }
  }
}
