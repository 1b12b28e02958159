/** The argument vector of a command (`CRedisCommand`, Content/RedisClient.cpp): a buffer sized first and
    then filled, which drops whatever does not fit. */
module RedisCommands {
  import opened Bytes
  import opened RedisStore

  function Interleaved(keys: seq<ByteString>, vals: seq<ByteString>): (args: seq<ByteString>)
    requires |keys| == |vals|
    ensures |args| == 2 * |keys|
  {
    if keys == [] then []
    else
      var n := |keys| - 1;
      Interleaved(keys[..n], vals[..n]) + [keys[n], vals[n]]
  }

  /** Key and value of pair i stand side by side, in order. */
  lemma {:induction false} InterleavedAt(keys: seq<ByteString>, vals: seq<ByteString>, i: nat)
    requires i < |keys| == |vals|
    ensures Interleaved(keys, vals)[2 * i] == keys[i] && Interleaved(keys, vals)[2 * i + 1] == vals[i]
  {
    var n := |keys| - 1;
    if i == n {
    } else {
      InterleavedAt(keys[..n], vals[..n], i);
    }
  }

  class RedisCommand {
    const cmd: ByteString
    var nArgs: nat
    var nIdx: nat
    var args: array<ByteString>

    ghost predicate Valid()
      reads this
    {
      args.Length == nArgs && nIdx <= nArgs
    }

    /** The arguments filled in so far. */
    ghost function Filled(): seq<ByteString>
      requires Valid()
      reads this, args
    {
      args[..nIdx]
    }

    /** Every slot is filled: what is sent, and later freed, is exactly what was appended. */
    ghost predicate Complete()
      requires Valid()
      reads this
    {
      nIdx == nArgs
    }

    constructor (cmd: ByteString)
      ensures Valid() && this.cmd == cmd && nArgs == 0 && fresh(args)
    {
      this.cmd := cmd;
      nArgs, nIdx := 0, 0;
      args := new ByteString[0];
    }

    method AppendValue(val: ByteString)
      requires Valid()
      modifies this`nIdx, args
      ensures Valid() && Filled() == if old(nIdx) < nArgs then old(Filled()) + [val] else old(Filled())
    {
      if nIdx >= nArgs { return; }
      args[nIdx] := val;
      nIdx := nIdx + 1;
    }

    method InitMemory(n: nat)
      requires Valid()
      modifies this
      ensures Valid() && fresh(args) && nArgs == n
      ensures Filled() == if n == 0 then [] else [cmd]
    {
      nArgs, nIdx := n, 0;
      args := new ByteString[n];
      AppendValue(cmd);
    }

    /** The overload for keys alone, as MGET uses it. */
    method SetArgsVector(vals: seq<ByteString>)
      requires Valid()
      modifies this
      ensures Valid() && Complete() && fresh(args) && Filled() == [cmd] + vals
    {
      InitMemory(|vals| + 1);
      for i := 0 to |vals|
        invariant Valid() && nArgs == |vals| + 1 && fresh(args) && Filled() == [cmd] + vals[..i]
      {
        PrefixNext(vals, i);
        AppendValue(vals[i]);
      }
      assert vals[..|vals|] == vals;
    }

    /** The overload for keys and values, as MSET uses it. Vectors of different lengths leave the
        command as it was. */
    method SetArgsPairs(keys: seq<ByteString>, vals: seq<ByteString>)
      requires Valid()
      modifies this
      ensures Valid()
      ensures if |keys| != |vals| then nArgs == old(nArgs) && args == old(args) && nIdx == old(nIdx)
              else Complete() && fresh(args) && Filled() == [cmd] + Interleaved(keys, vals)
    {
      if |keys| != |vals| { return; }
      InitMemory(2 * |keys| + 1);
      for i := 0 to |keys|
        invariant Valid() && nArgs == 2 * |keys| + 1 && fresh(args)
        invariant Filled() == [cmd] + Interleaved(keys[..i], vals[..i])
      {
        assert keys[..i + 1][..i] == keys[..i] && vals[..i + 1][..i] == vals[..i];
        AppendValue(keys[i]);
        AppendValue(vals[i]);
      }
      assert keys[..|keys|] == keys && vals[..|vals|] == vals;
    }

    /** `CmdRequest` before anything is sent: a command without arguments is refused. */
    method CheckArgs(connected: bool) returns (ret: int)
      ensures ret == if nArgs == 0 then RC_PARAM_ERR else if !connected then RC_RQST_ERR else RC_SUCCESS
    {
      if nArgs <= 0 { return RC_PARAM_ERR; }
      return if connected then RC_SUCCESS else RC_RQST_ERR;
    }
  }

  /** A fresh MSET command whose vectors differ in length is never sent. */
  method MismatchedMsetIsRefused(cmd: ByteString, keys: seq<ByteString>, vals: seq<ByteString>, connected: bool)
    returns (ret: int)
    ensures ret == RC_PARAM_ERR <==> |keys| != |vals|
  {
    var c := new RedisCommand(cmd);
    c.SetArgsPairs(keys, vals);
    ret := c.CheckArgs(connected);
  }
}
