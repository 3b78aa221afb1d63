/** Joining command arguments into a bounded payload. */
module Payload {
  import opened Errno
  import opened Text
  import opened Args

  const TX_PAYLOAD_MAX: nat := 244

  lemma {:induction false} JoinAppend(args: seq<string>, arg: string)
    requires args != []
    ensures JoinArgs(args + [arg]) == JoinArgs(args) + " " + arg
  {
    if |args| == 1 {
      assert (args + [arg])[1..] == [arg];
      assert JoinArgs(args + [arg]) == args[0] + " " + JoinArgs([arg]);
    } else {
      assert (args + [arg])[1..] == args[1..] + [arg];
      JoinAppend(args[1..], arg);
      Assoc(args[0] + " ", JoinArgs(args[1..]), " " + arg);
      Assoc(JoinArgs(args[1..]), " ", arg);
      Assoc(JoinArgs(args), " ", arg);
    }
  }

  lemma {:induction false} JoinGrows(args: seq<string>, more: seq<string>)
    ensures |JoinArgs(args)| <= |JoinArgs(args + more)|
    decreases |more|
  {
    if more == [] {
      assert args + more == args;
    } else {
      if args != [] {
        JoinAppend(args, more[0]);
      }
      assert args + more == (args + [more[0]]) + more[1..];
      JoinGrows(args + [more[0]], more[1..]);
    }
  }

  method CopyIn(buf: array<char>, offset: nat, text: string)
    requires offset + |text| <= buf.Length
    modifies buf
    ensures buf[..offset + |text|] == old(buf[..offset]) + text
  {
    forall k | 0 <= k < |text| {
      buf[offset + k] := text[k];
    }
  }

  /** One turn of the loop: the blank, if it is not the first argument, and the argument. */
  method AppendArg(buf: array<char>, offset: nat, blank: bool, arg: string) returns (next: Result<nat>)
    requires offset <= buf.Length && (blank ==> offset < buf.Length)
    modifies buf
    ensures var more := if blank then " " + arg else arg;
      if offset + |more| >= buf.Length then next == Failure(EMSGSIZE)
      else next == Value(offset + |more|) && buf[..offset + |more|] == old(buf[..offset]) + more
  {
    var at := offset;
    if blank {
      if at + 1 >= buf.Length {
        return Failure(EMSGSIZE);
      }
      CopyIn(buf, at, " ");
      at := at + 1;
    }
    if at + |arg| >= buf.Length {
      return Failure(EMSGSIZE);
    }
    CopyIn(buf, at, arg);
    next := Value(at + |arg|);
  }

  /** Joins the arguments from start on with single blanks. The text fits exactly if the buffer has
      room for it and a terminator. */
  method BuildPayload(start: nat, args: seq<string>, buf: array<char>) returns (ret: Result<nat>)
    requires forall a :: a in args ==> NulFree(a)
    modifies buf
    ensures start >= |args| ==> ret == Failure(EINVAL)
    ensures start < |args| ==>
      var joined := JoinArgs(args[start..]);
      if |joined| >= buf.Length then ret == Failure(EMSGSIZE)
      else ret == Value(|joined|) && buf[..|joined|] == joined && buf[|joined|] == NUL
  {
    if start >= |args| {
      return Failure(EINVAL);
    }
    var offset: nat := 0;
    var i := start;
    ghost var all := args[start..];
    while i < |args|
      invariant start <= i <= |args| && offset <= buf.Length
      invariant i > start ==> offset < buf.Length
      invariant buf[..offset] == JoinArgs(args[start..i])
    {
      JoinNext(args, start, i);
      var next := AppendArg(buf, offset, i > start, args[i]);
      if next.Failure? {
        return next;
      }
      offset := next.value;
      i := i + 1;
    }
    assert args[start..i] == all;
    buf[offset] := NUL;
    return Value(offset);
  }

  lemma JoinNext(args: seq<string>, start: nat, i: nat)
    requires start <= i < |args|
    ensures var so, next := JoinArgs(args[start..i]), JoinArgs(args[start..i + 1]);
      && next == so + (if i > start then " " + args[i] else args[i])
      && |next| <= |JoinArgs(args[start..])|
  {
    assert args[start..i + 1] == args[start..i] + [args[i]];
    if i > start {
      JoinAppend(args[start..i], args[i]);
      Assoc(JoinArgs(args[start..i]), " ", args[i]);
    }
    assert args[start..] == args[start..i + 1] + args[i + 1..];
    JoinGrows(args[start..i + 1], args[i + 1..]);
  }
}
