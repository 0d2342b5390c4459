/**
  The gate in front of every use of a key: a disabled or pending key refuses, whatever is
  called on the key store after the call that made it so.
 */
module Gates {
  import opened Bytes
  import opened Wrappers
  import opened KeyDb
  import opened KeyRuns
  import DataKeys
  import Kem
  import KeyStores
  import Lifecycle

  /** Encryption, decryption, wrapping and unwrapping refuse, and encryption would spend nothing. */
  ghost predicate AllRefuse(c: Crypto, kek: Option<bytes>, policy: Policy, db: Db, id: string) {
    && KeyStores.EncryptGate(c, kek, policy, db, id).Err?
    && (forall text, aad :: Decrypt(c, kek, db, id, text, aad).Err?)
    && (forall p, available, w, asked :: DataKeys.Unwrap(p, c, kek, available, db, id, w, asked).Err?)
    && (forall p, available, pub, dataKey, x | Kem.Lawful(p) && DataKeys.Sized(x) ::
          DataKeys.WrapUnder(p, c, kek, available, db, id, pub, dataKey, x).Err?)
  }

  lemma UnusableRefuses(c: Crypto, kek: Option<bytes>, policy: Policy, db: Db, id: string)
    requires id !in db.keys || db.keys[id].state != Enabled || kek.None?
    ensures AllRefuse(c, kek, policy, db, id)
  {
    hide SecretOf, ParseCiphertext, Kem.Lawful, DataKeys.Wrap, DataKeys.OpenWith;
  }

  /**
    After a key was disabled or scheduled for deletion, in every continuation that does
    not enable it every use of it is refused.
   */
  lemma DisabledKeyRefuses(c: Crypto, kek: Option<bytes>, policy: Policy, db: Db, calls: seq<(Lifecycle.Op, int)>,
                           op: Lifecycle.Op, now: int, more: seq<(Lifecycle.Op, int)>)
    requires op.Disable? || op.Schedule?
    requires Consistent(db) && Lifecycle.DeletionTimes(db) && Lifecycle.Call(Lifecycle.Run(db, calls), op, now).Ok?
    requires Lifecycle.NotEnabledBy(more, op.id) && Lifecycle.NotCreated(more, op.id)
    ensures AllRefuse(c, kek, policy, Lifecycle.Run(db, calls + [(op, now)] + more), op.id)
  {
    hide Lifecycle.Run, Lifecycle.Call, Consistent, AllRefuse;
    Lifecycle.RunKeeps(db, calls);
    Lifecycle.StaysUnusable(db, calls, op, now, more);
    UnusableRefuses(c, kek, policy, Lifecycle.Run(db, calls + [(op, now)] + more), op.id);
  }
}
