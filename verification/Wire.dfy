/** The physical side of a connection: the wire in front of the target. */
module SwdWire {
  import opened SwdTarget

  /** A wire and its target. `log` records the requests of the transaction plan the
      target has accepted; recovery traffic is not part of it. */
  class Wire {
    const env: Env
    // The most bits one exchange may carry.
    const limit: int
    var t: Target
    ghost var log: seq<Frame>

    constructor (env: Env, limit: int, t: Target)
      ensures this.env == env && this.limit == limit && this.t == t && log == []
    {
      this.env := env;
      this.limit := limit;
      this.t := t;
      log := [];
    }

    /** Clocks `fs` as consecutive frames in the host's grammar; `m` of them reach
        the target. The target may stall, spoil read parity or lose write data
        wherever its sticky flags allow; the wire may fail after any frame; and a
        rejected frame clocked in the wrong grammar is a wire failure. */
    method Exchange(fs: seq<Frame>, fixed: bool, ghost plan: bool)
      returns (ok: bool, replies: seq<Reply>, ghost cs: seq<Choice>, ghost m: nat)
      modifies this
      ensures |cs| == |fs| && m <= |fs|
      ensures t == Serve(env, old(t), fs, cs, m)
      ensures log == old(log) + (if plan then Taken(env, old(t), fs, cs, m) else [])
      ensures ok ==> m == |fs| == |replies|
      ensures ok ==> forall i :: 0 <= i < |fs| ==> replies[i] == ReplyAt(env, old(t), fs, cs, i)
      ensures ok ==> forall i :: 0 <= i < |fs| && !Accepts(replies[i]) ==>
                Overrun(Serve(env, old(t), fs, cs, i)) == fixed
    {
      hide Step, ReplyTo;
      replies, m := [], 0;
      assert |seq(|fs|, _ => Stall)| == |fs|;
      var choices: seq<Choice> :| |choices| == |fs|;
      cs := choices;
      for n := 0 to |fs|
        invariant n == m == |replies|
        invariant t == Serve(env, old(t), fs, cs, n)
        invariant log == old(log) + (if plan then Taken(env, old(t), fs, cs, n) else [])
        invariant forall i :: 0 <= i < n ==> replies[i] == ReplyAt(env, old(t), fs, cs, i)
        invariant forall i :: 0 <= i < n && !Accepts(replies[i]) ==>
                    Overrun(Serve(env, old(t), fs, cs, i)) == fixed
      {
        var fails: bool := *;
        if fails {
          return false, [], cs, n;
        }
        var reply := ReplyTo(env, t, fs[n], choices[n]);
        var grammar := Overrun(t) == fixed;
        t := Step(env, t, fs[n], choices[n]);
        replies := replies + [reply];
        log := if plan && Accepts(reply) then log + [fs[n]] else log;
        m := n + 1;
        if !Accepts(reply) && !grammar {
          return false, [], cs, m;
        }
      }
      ok := true;
    }

    /** The protocol-entry sequence: two line resets, which raise STICKYORUN when
        overrun detection is on. A failed sequence may or may not have had its effect. */
    method EnterSwd() returns (ok: bool)
      modifies this`t
      ensures t == old(t) || t == AfterReset(old(t))
    {
      var effect: bool;
      ok, effect := *, *;
      if effect || ok {
        t := AfterReset(t);
      }
    }
  }
}
