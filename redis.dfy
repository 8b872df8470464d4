/**
 * The part of Redis the order repository relies on, as a state machine: a
 * table of string values and the one set of order keys stored under
 * "orders". Commands queued on a transaction pipeline (MULTI/EXEC) are
 * applied together when it is executed, or not at all. Network failures are
 * inputs: a `fault` parameter that is Some(...) stands for a transport error
 * the client reports instead of a reply. For a request that writes, the
 * fault also says whether Redis ran the request before the reply was lost.
 */
module Redis {
  import opened Wrappers

  /** What a command reports instead of a reply: redis.Nil (no such key) or another failure. */
  datatype StoreError = Nil | Failed(reason: string)

  /** Contents of the database: string values by key, and the members of the index set. */
  datatype State = State(values: map<string, string>, index: set<string>)

  /**
   * A transport error on a request that writes. `committed` says whether
   * Redis received and ran the request before the connection failed, so the
   * client sees an error although the database has changed.
   */
  datatype Fault = Fault(reason: string, committed: bool)

  /** Whether a write request took effect: it got through, or failed only after Redis ran it. */
  predicate Landed(fault: Option<Fault>) {
    fault.None? || fault.value.committed
  }

  /** A command queued on a transaction pipeline. SAdd and SRem act on the index set. */
  datatype Command =
    | SetNX(key: string, value: string)
    | Del(key: string)
    | SAdd(member: string)
    | SRem(member: string)

  /** The reply of a queued command: SETNX answers whether it wrote, the others how many entries they changed. */
  datatype Reply = Flag(written: bool) | Count(n: nat)

  datatype Applied = Applied(state: State, replies: seq<Reply>)

  /** One command applied to the database. */
  function Step(st: State, c: Command): (r: (State, Reply))
    ensures c.SetNX? ==> r.0.index == st.index && c.key in r.0.values
    ensures c.SetNX? && c.key in st.values ==> r == (st, Flag(false))
    ensures c.Del? ==> r.0.index == st.index && r.0.values.Keys == st.values.Keys - {c.key}
    ensures c.SAdd? ==> r.0.values == st.values && r.0.index == st.index + {c.member}
    ensures c.SRem? ==> r.0.values == st.values && r.0.index == st.index - {c.member}
  {
    match c
    case SetNX(k, v) =>
      if k in st.values then (st, Flag(false)) else (State(st.values[k := v], st.index), Flag(true))
    case Del(k) =>
      if k in st.values then (State(st.values - {k}, st.index), Count(1)) else (st, Count(0))
    case SAdd(m) =>
      if m in st.index then (st, Count(0)) else (State(st.values, st.index + {m}), Count(1))
    case SRem(m) =>
      if m in st.index then (State(st.values, st.index - {m}), Count(1)) else (st, Count(0))
  }

  /**
   * Queued commands applied in order, with one reply per command. By
   * RunConcat, a queue built up over several calls runs as the commands one
   * batch after another would.
   */
  function Run(st: State, cmds: seq<Command>): (r: Applied)
    ensures |r.replies| == |cmds|
    decreases |cmds|
  {
    if cmds == [] then
      Applied(st, [])
    else
      var (next, reply) := Step(st, cmds[0]);
      var rest := Run(next, cmds[1..]);
      Applied(rest.state, [reply] + rest.replies)
  }

  /**
   * Running two batches one after the other is running them as one batch:
   * the second starts from the state the first leaves, and the replies are
   * those of the first followed by those of the second.
   */
  lemma {:induction false} RunConcat(st: State, first: seq<Command>, second: seq<Command>)
    ensures Run(st, first + second) ==
      Applied(Run(Run(st, first).state, second).state, Run(st, first).replies + Run(Run(st, first).state, second).replies)
    decreases |first|
  {
    if first == [] {
      assert first + second == second;
    } else {
      var next := Step(st, first[0]).0;
      assert (first + second)[0] == first[0];
      assert (first + second)[1..] == first[1..] + second;
      RunConcat(next, first[1..], second);
    }
  }

  class Store {
    var values: map<string, string>
    var index: set<string>

    /** An empty database. */
    constructor ()
      ensures values == map[] && index == {}
    {
      values := map[];
      index := {};
    }

    function Snapshot(): State
      reads this
    {
      State(values, index)
    }

    /** GET key. */
    method Get(key: string, fault: Option<string>) returns (r: Result<string, StoreError>)
      ensures fault.Some? ==> r == Failure(Failed(fault.value))
      ensures fault.None? && key in values ==> r == Success(values[key])
      ensures fault.None? && key !in values ==> r == Failure(Nil)
    {
      if fault.Some? {
        return Failure(Failed(fault.value));
      }
      if key in values {
        return Success(values[key]);
      }
      return Failure(Nil);
    }

    /**
     * SET key value XX: writes only over an existing key. The reply says
     * whether it wrote; an absent key is a false reply, not an error (the
     * client maps the nil reply of SET to false). On a fault the write has
     * happened exactly when the request was committed before the failure.
     */
    method SetXX(key: string, value: string, fault: Option<Fault>) returns (r: Result<bool, StoreError>)
      modifies this
      ensures fault.Some? ==> r == Failure(Failed(fault.value.reason))
      ensures fault.None? ==> r == Success(key in old(values))
      ensures values == if Landed(fault) && key in old(values) then old(values)[key := value] else old(values)
      ensures index == old(index)
      ensures !(Landed(fault) && key in old(values)) ==> unchanged(this)
    {
      var written := key in values;
      if Landed(fault) && written {
        values := values[key := value];
      }
      if fault.Some? {
        return Failure(Failed(fault.value.reason));
      }
      return Success(written);
    }

    /** MGET keys: one entry per requested key, None (Go's nil) where the key is absent. */
    method MGet(keys: seq<string>, fault: Option<string>) returns (r: Result<seq<Option<string>>, StoreError>)
      ensures fault.Some? ==> r == Failure(Failed(fault.value))
      ensures fault.None? ==> r.Success? && |r.value| == |keys|
      ensures fault.None? ==> forall i :: 0 <= i < |keys| ==>
        r.value[i] == if keys[i] in values then Some(values[keys[i]]) else None
    {
      if fault.Some? {
        return Failure(Failed(fault.value));
      }
      var table := values;
      r := Success(seq(|keys|, i requires 0 <= i < |keys| =>
        if keys[i] in table then Some(table[keys[i]]) else None));
    }

    /** TxPipeline: a new, empty transaction on this database. */
    method TxPipeline() returns (t: TxPipeline)
      ensures fresh(t) && t.store == this && t.queued == []
    {
      t := new TxPipeline(this);
    }
  }

  /** A MULTI/EXEC transaction being built: commands are queued and only applied by Exec. */
  class TxPipeline {
    const store: Store
    var queued: seq<Command>

    constructor (store: Store)
      ensures this.store == store && queued == []
    {
      this.store := store;
      queued := [];
    }

    method SetNX(key: string, value: string)
      modifies this
      ensures queued == old(queued) + [Command.SetNX(key, value)]
    {
      queued := queued + [Command.SetNX(key, value)];
    }

    method Del(key: string)
      modifies this
      ensures queued == old(queued) + [Command.Del(key)]
    {
      queued := queued + [Command.Del(key)];
    }

    method SAdd(member: string)
      modifies this
      ensures queued == old(queued) + [Command.SAdd(member)]
    {
      queued := queued + [Command.SAdd(member)];
    }

    method SRem(member: string)
      modifies this
      ensures queued == old(queued) + [Command.SRem(member)]
    {
      queued := queued + [Command.SRem(member)];
    }

    /** Drops every queued command. */
    method Discard()
      modifies this
      ensures queued == []
    {
      queued := [];
    }

    /**
     * Sends the queued commands as one transaction. With nothing queued no
     * request is made and it succeeds, whatever the network would have done.
     * Otherwise every command is applied, in order, or none is: none only
     * when a fault struck before Redis ran the transaction. A fault after
     * that still reports an error, with every command applied.
     */
    method Exec(fault: Option<Fault>) returns (r: Result<seq<Reply>, StoreError>)
      modifies this, store
      ensures queued == []
      ensures old(queued) == [] ==> r == Success([]) && unchanged(store)
      ensures old(queued) != [] && fault.Some? ==> r == Failure(Failed(fault.value.reason))
      ensures old(queued) != [] && !Landed(fault) ==> unchanged(store)
      ensures old(queued) != [] && Landed(fault) ==> store.Snapshot() == Run(old(store.Snapshot()), old(queued)).state
      ensures old(queued) != [] && fault.None? ==> r == Success(Run(old(store.Snapshot()), old(queued)).replies)
    {
      if queued == [] {
        return Success([]);
      }
      var ran := Run(store.Snapshot(), queued);
      if Landed(fault) {
        store.values, store.index := ran.state.values, ran.state.index;
      }
      queued := [];
      if fault.Some? {
        return Failure(Failed(fault.value.reason));
      }
      r := Success(ran.replies);
    }
  }
}
