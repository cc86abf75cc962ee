// The string helper `util::to_str` and the on-screen logging wrapper
// `GEngineInterface::AddOnScreenDebugMessage` (Source/MenuSystem/GEngineInterface.h).

/** `util::to_str`, restricted to string arguments: every call site in the
    character passes `std::string` values or C strings, and streaming a string
    into an `ostringstream` yields it unchanged. */
module Util {

  /** The one-argument overload `to_str(value)`. */
  function ToStr(value: string): string
  {
    value
  }

  /** The variadic overload `to_str(value, args...)`, with the argument pack as a
      non-empty sequence: one argument goes to `to_str(value)`, more than one to
      `to_str(value) + to_str(args...)`. */
  function ToStrArgs(args: seq<string>): (r: string)
    requires |args| >= 1
    ensures |r| == TotalLength(args)
    ensures args[0] <= r
    decreases |args|
  {
    if |args| == 1 then ToStr(args[0]) else ToStr(args[0]) + ToStrArgs(args[1..])
  }

  /** Sum of the lengths of the arguments. */
  function TotalLength(args: seq<string>): nat
  {
    if args == [] then 0 else |args[0]| + TotalLength(args[1..])
  }

  /** Reference definition: concatenation folded from the left. */
  function Concat(args: seq<string>): string
  {
    if args == [] then "" else Concat(args[..|args| - 1]) + args[|args| - 1]
  }

  lemma {:induction false} ConcatCons(a: string, rest: seq<string>)
    ensures Concat([a] + rest) == a + Concat(rest)
    decreases |rest|
  {
    var xs := [a] + rest;
    if rest == [] {
      assert xs[..|xs| - 1] == [];
    } else {
      var init := rest[..|rest| - 1];
      assert xs[..|xs| - 1] == [a] + init;
      assert xs[|xs| - 1] == rest[|rest| - 1];
      ConcatCons(a, init);
    }
  }

  /** A single string argument comes back unchanged. */
  lemma ToStrArgsSingle(s: string)
    ensures ToStrArgs([s]) == s
  {
  }

  /** `to_str(v, rest...) == to_str(v) + to_str(rest...)`. */
  lemma ToStrArgsCons(v: string, rest: seq<string>)
    requires |rest| >= 1
    ensures ToStrArgs([v] + rest) == ToStr(v) + ToStrArgs(rest)
  {
    assert ([v] + rest)[1..] == rest;
  }

  /** Over strings, `to_str(a1, ..., an)` is `a1 + ... + an`. */
  lemma {:induction false} ToStrArgsIsConcat(args: seq<string>)
    requires |args| >= 1
    ensures ToStrArgs(args) == Concat(args)
    decreases |args|
  {
    if |args| == 1 {
      assert args == [args[0]] + [];
      ConcatCons(args[0], []);
    } else {
      ToStrArgsIsConcat(args[1..]);
      assert args == [args[0]] + args[1..];
      ConcatCons(args[0], args[1..]);
    }
  }

  /** Splitting the argument list splits the result. */
  lemma {:induction false} ToStrArgsAppend(a: seq<string>, b: seq<string>)
    requires |a| >= 1 && |b| >= 1
    ensures ToStrArgs(a + b) == ToStrArgs(a) + ToStrArgs(b)
    decreases |a|
  {
    assert (a + b)[0] == a[0];
    if |a| == 1 {
      assert (a + b)[1..] == b;
    } else {
      assert (a + b)[1..] == a[1..] + b;
      ToStrArgsAppend(a[1..], b);
    }
  }

  /** Argument i sits in the result right after the arguments before it. */
  lemma {:induction false} ToStrArgsAt(args: seq<string>, i: nat)
    requires i < |args|
    ensures TotalLength(args[..i]) + |args[i]| <= |ToStrArgs(args)|
    ensures ToStrArgs(args)[TotalLength(args[..i])..TotalLength(args[..i]) + |args[i]|] == args[i]
    decreases i
  {
    var r := ToStrArgs(args);
    if i == 0 {
      assert args[..0] == [];
      assert r[..|args[0]|] == args[0];
    } else {
      var rest := args[1..];
      var tail := ToStrArgs(rest);
      assert r == args[0] + tail;
      ToStrArgsAt(rest, i - 1);
      assert args[..i][0] == args[0];
      assert args[..i][1..] == rest[..i - 1];
      var off := TotalLength(rest[..i - 1]);
      assert TotalLength(args[..i]) == |args[0]| + off;
      assert rest[i - 1] == args[i];
      assert r[|args[0]| + off..|args[0]| + off + |args[i]|] == tail[off..off + |args[i]|];
    }
  }

  /** Two-argument form, as the log messages use it. */
  lemma ToStrArgsPair(a: string, b: string)
    ensures ToStrArgs([a, b]) == a + b
  {
    assert [a, b][1..] == [b];
  }

  /** Four-argument form, as the search-result log line uses it. */
  lemma ToStrArgsFour(a: string, b: string, c: string, d: string)
    ensures ToStrArgs([a, b, c, d]) == a + b + c + d
  {
    assert [a, b, c, d][1..] == [b, c, d];
    assert [b, c, d][1..] == [c, d];
    ToStrArgsPair(c, d);
    assert ToStrArgs([b, c, d]) == b + (c + d);
    assert ToStrArgs([a, b, c, d]) == a + (b + (c + d));
  }

  /** Argument order matters. */
  lemma ToStrArgsOrderMatters()
    ensures ToStrArgs(["a", "b"]) != ToStrArgs(["b", "a"])
  {
    ToStrArgsPair("a", "b");
    ToStrArgsPair("b", "a");
    assert ToStrArgs(["a", "b"])[0] == 'a';
  }
}

/** `GEngineInterface::AddOnScreenDebugMessage`: forwards one message to the
    engine's on-screen message list, with key -1 and a display time of ten
    seconds, when the global engine pointer is set; does nothing otherwise. */
module GEngineInterface {

  datatype Color = Blue | Red | Cyan | Yellow

  /** Key -1: always add a new line, never replace an existing one. */
  const MessageKey: int := -1
  const DisplaySeconds: real := 10.0

  datatype DebugMessage = DebugMessage(key: int, seconds: real, color: Color, text: string)

  /** What one call hands to the engine: the message, or nothing when the
      engine is absent. */
  function Forwarded(enginePresent: bool, color: Color, log: string): (r: seq<DebugMessage>)
  {
    if enginePresent then [DebugMessage(MessageKey, DisplaySeconds, color, log)] else []
  }

  lemma ForwardedExactlyWhenPresent(enginePresent: bool, color: Color, log: string)
    ensures |Forwarded(enginePresent, color, log)| == if enginePresent then 1 else 0
    ensures enginePresent ==>
      Forwarded(enginePresent, color, log)[0] == DebugMessage(-1, 10.0, color, log)
  {
  }

  /** The engine object behind the global `GEngine` pointer, reduced to its
      list of on-screen messages. */
  class Engine {
    var messages: seq<DebugMessage>

    constructor ()
      ensures messages == []
    {
      messages := [];
    }
  }

  /** `engine` is the global `GEngine`, null when no engine exists. */
  method AddOnScreenDebugMessage(engine: Engine?, color: Color, log: string)
    modifies engine
    ensures engine != null ==> engine.messages == old(engine.messages) + Forwarded(true, color, log)
  {
    if engine != null {
      engine.messages := engine.messages + [DebugMessage(MessageKey, DisplaySeconds, color, log)];
    }
  }
}
