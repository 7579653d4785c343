/**
 The transaction context: a read cache and a write cache over the keys below one store prefix.
 Values stand for their JSON encoding.
 */
module TxnContext {
  import opened Wrappers

  /** The whole state a context works on, as a value. */
  datatype Ctx<V> = Ctx(prefix: string, store: map<string, V>,
                        readSet: map<string, V>, writeSet: map<string, V>, dirty: bool)

  /** The operations; `ok` tells whether the store answers. */
  datatype Op<V> = Set(key: string, value: V) | Get(key: string) | Sync | Commit | Delete(key: string)

  predicate HasPrefix(k: string, prefix: string) {
    prefix <= k
  }

  /** What the store holds below the prefix. */
  function Under<V>(c: Ctx<V>): map<string, V> {
    map k | k in c.store && HasPrefix(k, c.prefix) :: c.store[k]
  }

  /** The one map a context is meant to be: the stored keys, overlaid with the pending ones. */
  function View<V>(c: Ctx<V>): map<string, V> {
    Under(c) + c.writeSet
  }

  function Lookup<V>(m: map<string, V>, k: string): Option<V> {
    if k in m then Some(m[k]) else None
  }

  function SetOp<V>(c: Ctx<V>, key: string, v: V): Ctx<V> {
    var k := c.prefix + key;
    c.(readSet := c.readSet[k := v], writeSet := c.writeSet[k := v])
  }

  function SyncOp<V>(c: Ctx<V>, ok: bool): Ctx<V> {
    if ok then c.(readSet := c.readSet + Under(c)) else c
  }

  function CommitOp<V>(c: Ctx<V>, ok: bool): Ctx<V> {
    if c.writeSet == map[] || !ok then c
    else c.(store := c.store + c.writeSet, writeSet := map[], dirty := true)
  }

  function DeleteOp<V>(c: Ctx<V>, key: string, ok: bool): Ctx<V> {
    var k := c.prefix + key;
    c.(readSet := c.readSet - {k}, writeSet := c.writeSet - {k}, store := if ok then c.store - {k} else c.store)
  }

  /** Get syncs first when the read cache is dirty. */
  function GetOp<V>(c: Ctx<V>, ok: bool): Ctx<V> {
    if c.dirty && ok then SyncOp(c, ok).(dirty := false) else c
  }

  function GetResult<V>(c: Ctx<V>, key: string, ok: bool): Option<V> {
    if c.dirty && !ok then None else Lookup(GetOp(c, ok).readSet, c.prefix + key)
  }

  // ---------------------------------------------------------------- coherence

  /** The read cache never disagrees with the map, and when it is not dirty it is all of it. */
  ghost predicate Coherent<V>(c: Ctx<V>) {
    && (forall k :: k in c.writeSet ==> HasPrefix(k, c.prefix) && k in c.readSet)
    && (forall k :: k in c.readSet ==> k in View(c) && c.readSet[k] == View(c)[k])
    && (!c.dirty ==> forall k :: k in View(c) ==> k in c.readSet)
  }

  /** No pending Set would be hidden by a stored value. */
  ghost predicate CanSync<V>(c: Ctx<V>) {
    forall k :: k in c.writeSet && k in c.store ==> c.store[k] == c.writeSet[k]
  }

  lemma KeyHasPrefix(prefix: string, key: string)
    ensures HasPrefix(prefix + key, prefix)
  {
  }

  /** A sync keeps the context coherent exactly when no pending Set is on a key stored with another
      value. */
  lemma SyncExact<V(!new)>(c: Ctx<V>)
    requires Coherent(c)
    ensures Coherent(SyncOp(c, true)) <==> CanSync(c)
    ensures View(SyncOp(c, true)) == View(c)
  {
  }

  /** Every Get answers from the map exactly when the cache is clean or can be synced. */
  lemma GetExact<V(!new)>(c: Ctx<V>)
    requires Coherent(c)
    ensures (forall key: string :: GetResult(c, key, true) == Lookup(View(c), c.prefix + key))
            <==> (!c.dirty || CanSync(c))
  {
    if !c.dirty || CanSync(c) {
      SyncExact(c);
      forall key: string
        ensures GetResult(c, key, true) == Lookup(View(c), c.prefix + key)
      {
        KeyHasPrefix(c.prefix, key);
      }
    } else {
      var k :| k in c.writeSet && k in c.store && c.store[k] != c.writeSet[k];
      assert HasPrefix(k, c.prefix);
      var key := k[|c.prefix|..];
      assert k == c.prefix + key;
      assert k in Under(c);
      assert GetResult(c, key, true) == Some(c.store[k]);
      assert Lookup(View(c), c.prefix + key) == Some(c.writeSet[k]);
    }
  }

  lemma SetKeeps<V(!new)>(c: Ctx<V>, key: string, v: V)
    requires Coherent(c)
    ensures Coherent(SetOp(c, key, v)) && View(SetOp(c, key, v)) == View(c)[c.prefix + key := v]
  {
    hide Coherent;
    var d := SetOp(c, key, v);
    assert Under(d) == Under(c);
    assert View(d) == View(c)[c.prefix + key := v];
    SetCoherent(c, d, c.prefix + key, v);
  }

  lemma SetCoherent<V(!new)>(c: Ctx<V>, d: Ctx<V>, k: string, v: V)
    requires Coherent(c) && HasPrefix(k, c.prefix) && View(d) == View(c)[k := v]
    requires d == c.(readSet := c.readSet[k := v], writeSet := c.writeSet[k := v])
    ensures Coherent(d)
  {
  }

  lemma CommitKeeps<V(!new)>(c: Ctx<V>, ok: bool)
    requires Coherent(c)
    ensures Coherent(CommitOp(c, ok)) && View(CommitOp(c, ok)) == View(c)
    ensures ok ==> Under(CommitOp(c, ok)) == View(c)
  {
    var d := CommitOp(c, ok);
    if d != c {
      assert Under(d) == Under(c) + c.writeSet;
      assert View(d) == Under(d);
    } else if ok {
      assert View(c) == Under(c);
    }
  }

  lemma DeleteKeeps<V(!new)>(c: Ctx<V>, key: string)
    requires Coherent(c)
    ensures Coherent(DeleteOp(c, key, true)) && View(DeleteOp(c, key, true)) == View(c) - {c.prefix + key}
  {
    hide Coherent;
    var d := DeleteOp(c, key, true);
    assert Under(d) == Under(c) - {c.prefix + key};
    assert View(d) == View(c) - {c.prefix + key};
    DeleteCoherent(c, d, c.prefix + key);
  }

  lemma DeleteCoherent<V(!new)>(c: Ctx<V>, d: Ctx<V>, k: string)
    requires Coherent(c) && View(d) == View(c) - {k}
    requires d.prefix == c.prefix && d.dirty == c.dirty
    requires d.readSet == c.readSet - {k} && d.writeSet == c.writeSet - {k}
    ensures Coherent(d)
  {
  }

  // ---------------------------------------------------------------- whole runs

  function Step<V>(c: Ctx<V>, op: Op<V>): Ctx<V> {
    match op
    case Set(key, v) => SetOp(c, key, v)
    case Get(_) => GetOp(c, true)
    case Sync => SyncOp(c, true)
    case Commit => CommitOp(c, true)
    case Delete(key) => DeleteOp(c, key, true)
  }

  /** The same operation on a plain map. */
  function PlainStep<V>(m: map<string, V>, prefix: string, op: Op<V>): map<string, V> {
    match op
    case Set(key, v) => m[prefix + key := v]
    case Delete(key) => m - {prefix + key}
    case _ => m
  }

  function Run<V>(c: Ctx<V>, ops: seq<Op<V>>): Ctx<V> {
    if ops == [] then c else Step(Run(c, ops[..|ops| - 1]), ops[|ops| - 1])
  }

  function PlainRun<V>(m: map<string, V>, prefix: string, ops: seq<Op<V>>): map<string, V> {
    if ops == [] then m else PlainStep(PlainRun(m, prefix, ops[..|ops| - 1]), prefix, ops[|ops| - 1])
  }

  /** No sync, asked for or caused by a Get, while a Set on a key stored differently is pending. */
  ghost predicate Quiet<V>(c: Ctx<V>, op: Op<V>) {
    op.Sync? || (op.Get? && c.dirty) ==> CanSync(c)
  }

  ghost predicate QuietRun<V>(c: Ctx<V>, ops: seq<Op<V>>) {
    ops == [] || (QuietRun(c, ops[..|ops| - 1]) && Quiet(Run(c, ops[..|ops| - 1]), ops[|ops| - 1]))
  }

  lemma StepIsPlain<V(!new)>(c: Ctx<V>, op: Op<V>)
    requires Coherent(c) && Quiet(c, op)
    ensures Coherent(Step(c, op)) && View(Step(c, op)) == PlainStep(View(c), c.prefix, op)
    ensures Step(c, op).prefix == c.prefix
    ensures forall k :: !HasPrefix(k, c.prefix) ==> Lookup(Step(c, op).store, k) == Lookup(c.store, k)
  {
    match op
    case Set(key, v) => SetKeeps(c, key, v);
    case Get(_) =>
      SyncExact(c);
      if c.dirty {
        assert View(GetOp(c, true)) == View(SyncOp(c, true));
        assert Under(c) == Under(GetOp(c, true));
      }
    case Sync => SyncExact(c);
    case Commit => CommitKeeps(c, true);
    case Delete(key) =>
      DeleteKeeps(c, key);
      KeyHasPrefix(c.prefix, key);
  }

  /** A context that is the only writer below its prefix is one plain map over every quiet run, and
      leaves every other key of the store alone. */
  lemma {:induction false} RunIsPlainMap<V(!new)>(c: Ctx<V>, ops: seq<Op<V>>)
    requires Coherent(c) && QuietRun(c, ops)
    ensures Coherent(Run(c, ops)) && View(Run(c, ops)) == PlainRun(View(c), c.prefix, ops)
    ensures Run(c, ops).prefix == c.prefix
    ensures forall k :: !HasPrefix(k, c.prefix) ==> Lookup(Run(c, ops).store, k) == Lookup(c.store, k)
  {
    if ops != [] {
      RunIsPlainMap(c, ops[..|ops| - 1]);
      StepIsPlain(Run(c, ops[..|ops| - 1]), ops[|ops| - 1]);
    }
  }

  /** So every Get of a quiet run answers as the plain map would, and a Commit at its end leaves
      exactly that map in the store. */
  lemma QuietRunAnswers<V(!new)>(c: Ctx<V>, ops: seq<Op<V>>, key: string)
    requires Coherent(c) && QuietRun(c, ops)
    ensures Quiet(Run(c, ops), Get(key)) ==>
              GetResult(Run(c, ops), key, true) == Lookup(PlainRun(View(c), c.prefix, ops), c.prefix + key)
    ensures Under(CommitOp(Run(c, ops), true)) == PlainRun(View(c), c.prefix, ops)
  {
    RunIsPlainMap(c, ops);
    var d := Run(c, ops);
    GetExact(d);
    CommitKeeps(d, true);
  }

  // ---------------------------------------------------------------- after a Get

  /** A successful Get leaves the cache clean and complete, whatever the context was. */
  lemma GetCleans<V(!new)>(c: Ctx<V>)
    ensures !GetOp(c, true).dirty && GetOp(c, true).store == c.store && GetOp(c, true).writeSet == c.writeSet
    ensures c.dirty ==> forall k :: k in Under(c) ==> k in GetOp(c, true).readSet && GetOp(c, true).readSet[k] == c.store[k]
    ensures !c.dirty ==> GetOp(c, true) == c
  {
  }

  /** Neither a commit of pending writes nor a sync. */
  predicate NoSync<V>(ops: seq<Op<V>>) {
    forall k :: 0 <= k < |ops| ==> !ops[k].Sync? && !ops[k].Commit?
  }

  /** Once a Get has answered right, every later Get answers as the plain map does, also after a Set on a
      stored key, until the next sync or commit. */
  lemma {:induction false} AnswersAfterGet<V(!new)>(c: Ctx<V>, ops: seq<Op<V>>)
    requires Coherent(c) && (c.dirty ==> CanSync(c)) && NoSync(ops)
    ensures var d := Run(GetOp(c, true), ops);
            && Coherent(d) && !d.dirty && d.prefix == c.prefix && View(d) == PlainRun(View(c), c.prefix, ops)
            && forall key: string :: GetResult(d, key, true) == Lookup(PlainRun(View(c), c.prefix, ops), c.prefix + key)
  {
    hide Coherent, View, CanSync;
    var d := GetOp(c, true);
    if ops == [] {
      StepIsPlain(c, Get(""));
    } else {
      var before, op := ops[..|ops| - 1], ops[|ops| - 1];
      AnswersAfterGet(c, before);
      StepIsPlain(Run(d, before), op);
      StaysClean(Run(d, before), op);
    }
    GetExact(Run(d, ops));
  }

  lemma StaysClean<V>(c: Ctx<V>, op: Op<V>)
    requires !c.dirty && !op.Sync? && !op.Commit?
    ensures !Step(c, op).dirty
  {
  }

  /** A commit of pending writes makes the next Get look at the store again, so that it sees what others
      have written there meanwhile. */
  lemma CommitThenGetSeesStore<V>(c: Ctx<V>, store: map<string, V>, key: string)
    requires c.writeSet != map[] && c.prefix + key in store
    ensures var d := CommitOp(c, true).(store := store);
            d.dirty && d.writeSet == map[] && GetResult(d, key, true) == Some(store[c.prefix + key])
  {
    KeyHasPrefix(c.prefix, key);
  }

  /** When the store does not answer: a sync and a commit change nothing, a Get on a dirty cache reports
      it and one on a clean cache answers all the same, and a Delete clears the caches only. */
  lemma StoreDown<V>(c: Ctx<V>, key: string)
    ensures SyncOp(c, false) == CommitOp(c, false) == GetOp(c, false) == c
    ensures GetResult(c, key, false) == if c.dirty then None else Lookup(c.readSet, c.prefix + key)
    ensures var d := DeleteOp(c, key, false);
            && d.store == c.store && Lookup(d.readSet, c.prefix + key) == Lookup(d.writeSet, c.prefix + key) == None
            && forall k :: k != c.prefix + key ==>
                 Lookup(d.readSet, k) == Lookup(c.readSet, k) && Lookup(d.writeSet, k) == Lookup(c.writeSet, k)
  {
  }

  /** A new context starts coherent. */
  lemma NewIsCoherent<V(!new)>(prefix: string, store: map<string, V>)
    ensures Coherent(Ctx(prefix, store, map[], map[], true))
  {
  }

  /** Where the assumption is needed: a Set on a stored key followed by a Get on a fresh context
      answers with the old stored value. */
  lemma PendingSetIsHidden<V>(prefix: string, key: string, old_: V, new_: V)
    requires old_ != new_
    ensures var c := Ctx(prefix, map[prefix + key := old_], map[], map[], true);
            GetResult(SetOp(c, key, new_), key, true) == Some(old_)
  {
  }

  // ---------------------------------------------------------------- the context as an object

  /** The cache after copying some stored keys into it. */
  ghost predicate Copied<V>(kv: map<string, V>, keys: set<string>, before: map<string, V>, after: map<string, V>) {
    && (forall k :: k in after <==> k in before || k in keys)
    && (forall k :: k in keys ==> k in kv && after[k] == kv[k])
    && (forall k :: k in before && k !in keys ==> after[k] == before[k])
  }

  lemma NothingCopied<V>(kv: map<string, V>, cache: map<string, V>)
    ensures Copied(kv, {}, cache, cache)
  {
  }

  lemma CopiedOne<V>(kv: map<string, V>, keys: set<string>, k: string, before: map<string, V>, after: map<string, V>)
    requires Copied(kv, keys, before, after) && k in kv
    ensures Copied(kv, keys + {k}, before, after[k := kv[k]])
  {
  }

  lemma CopiedAll<V>(c: Ctx<V>, keys: set<string>, after: map<string, V>)
    requires Copied(c.store, keys, c.readSet, after)
    requires keys == set k | k in c.store && HasPrefix(k, c.prefix)
    ensures after == c.readSet + Under(c)
  {
  }

  class Store<V> {
    var kv: map<string, V>

    constructor ()
      ensures kv == map[]
    {
      kv := map[];
    }
  }

  class Tctx<V(==)> {
    const prefix: string
    const store: Store<V>
    var readSet: map<string, V>
    var writeSet: map<string, V>
    var readCacheDirty: bool

    ghost function State(): Ctx<V>
      reads this, store
    {
      Ctx(prefix, store.kv, readSet, writeSet, readCacheDirty)
    }

    constructor (prefix: string, store: Store<V>)
      ensures this.store == store && State() == Ctx(prefix, store.kv, map[], map[], true)
    {
      this.prefix, this.store := prefix, store;
      readSet, writeSet, readCacheDirty := map[], map[], true;
    }

    method Put(key: string, value: V)
      modifies this
      ensures State() == SetOp(old(State()), key, value)
    {
      var storeKey := prefix + key;
      readSet := readSet[storeKey := value];
      writeSet := writeSet[storeKey := value];
    }

    /** Copy every stored key below the prefix into the read cache, one by one. */
    method SyncCache(ok: bool) returns (success: bool)
      modifies this`readSet
      ensures success == ok && State() == SyncOp(old(State()), ok)
    {
      if !ok {
        return false;
      }
      var todo := set k | k in store.kv && HasPrefix(k, prefix);
      ghost var all := todo;
      NothingCopied(store.kv, readSet);
      assert all - todo == {};
      hide Copied;
      while todo != {}
        invariant todo <= all && forall k :: k in all ==> k in store.kv
        invariant Copied(store.kv, all - todo, old(readSet), readSet)
        decreases |todo|
      {
        var k :| k in todo;
        CopiedOne(store.kv, all - todo, k, old(readSet), readSet);
        assert all - (todo - {k}) == all - todo + {k};
        readSet := readSet[k := store.kv[k]];
        todo := todo - {k};
      }
      assert all - todo == all;
      CopiedAll(old(State()), all, readSet);
      success := true;
    }

    method Fetch(key: string, ok: bool) returns (r: Option<V>)
      modifies this
      ensures State() == GetOp(old(State()), ok) && r == GetResult(old(State()), key, ok)
    {
      if readCacheDirty {
        var synced := SyncCache(ok);
        if !synced {
          return None;
        }
        readCacheDirty := false;
      }
      var storeKey := prefix + key;
      if storeKey in readSet {
        r := Some(readSet[storeKey]);
      } else {
        r := None;
      }
    }

    /** One store transaction with all pending writes. */
    method Commit(ok: bool) returns (success: bool)
      modifies this, store
      ensures State() == CommitOp(old(State()), ok)
      ensures success <==> ok || old(writeSet) == map[]
    {
      if writeSet == map[] {
        return true;
      }
      if !ok {
        return false;
      }
      store.kv := store.kv + writeSet;
      writeSet := map[];
      readCacheDirty := true;
      success := true;
    }

    method Delete(key: string, ok: bool) returns (success: bool)
      modifies this, store
      ensures success == ok && State() == DeleteOp(old(State()), key, ok)
    {
      var storeKey := prefix + key;
      readSet := readSet - {storeKey};
      writeSet := writeSet - {storeKey};
      if ok {
        store.kv := store.kv - {storeKey};
      }
      success := ok;
    }
  }
}
