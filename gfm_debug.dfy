/** The debug stack of `document/parser/parser.py`, as written. `_call`
    pushes the function's name onto `_debug_stack`, `_return` pops it, and
    `reset` replaces it by an empty list. `parse_lines` pushes, then resets,
    then pops: the pop finds the stack empty and raises `IndexError`,
    whatever the lines. */
module GfmDebug {
  import opened Strings

  /** One action on `_debug_stack`. */
  datatype DebugEvent = Call(name: string) | Return | ResetStack

  /** The stack after `events`, or `None` once a `_return` pops an empty
      stack (Python's `IndexError`). */
  function Replay(stack: seq<string>, events: seq<DebugEvent>): (r: Option<seq<string>>)
    ensures events == [] ==> r == Some(stack)
    ensures events != [] && events[0] == Return && stack == [] ==> r == None
    decreases |events|
  {
    if events == [] then Some(stack)
    else match events[0]
      case Call(name) => Replay(stack + [name], events[1..])
      case ResetStack => Replay([], events[1..])
      case Return => if stack == [] then None else Replay(stack[..|stack| - 1], events[1..])
  }

  /** Replaying two runs of events one after the other. */
  lemma {:induction false} ReplayAppend(stack: seq<string>, a: seq<DebugEvent>, b: seq<DebugEvent>)
    ensures Replay(stack, a + b) == if Replay(stack, a).Some? then Replay(Replay(stack, a).value, b) else None
    decreases |a|
  {
    if a != [] {
      assert (a + b)[1..] == a[1..] + b;
      match a[0]
      case Call(name) => ReplayAppend(stack + [name], a[1..], b);
      case ResetStack => ReplayAppend([], a[1..], b);
      case Return =>
        if stack != [] {
          ReplayAppend(stack[..|stack| - 1], a[1..], b);
        }
    } else {
      assert a + b == b;
    }
  }

  /** The nested calls a method makes: each is a `_call` of its name, the
      calls it makes in turn, and a `_return`. `_parse_blocks` and the two
      code-block methods pair their calls this way. */
  datatype CallTree = Node(name: string, callees: seq<CallTree>)

  function TreeEvents(t: CallTree): seq<DebugEvent>
    decreases t, 1
  {
    [Call(t.name)] + ForestEvents(t.callees) + [Return]
  }

  function ForestEvents(ts: seq<CallTree>): seq<DebugEvent>
    decreases ts, 0
  {
    if ts == [] then [] else TreeEvents(ts[0]) + ForestEvents(ts[1..])
  }

  /** Paired calls leave the stack as they found it. */
  lemma {:induction false} ForestKeepsStack(stack: seq<string>, ts: seq<CallTree>)
    ensures Replay(stack, ForestEvents(ts)) == Some(stack)
    decreases ts, 0
  {
    if ts != [] {
      TreeKeepsStack(stack, ts[0]);
      ReplayAppend(stack, TreeEvents(ts[0]), ForestEvents(ts[1..]));
      ForestKeepsStack(stack, ts[1..]);
    }
  }

  lemma {:induction false} TreeKeepsStack(stack: seq<string>, t: CallTree)
    ensures Replay(stack, TreeEvents(t)) == Some(stack)
    decreases t, 1
  {
    var pushed := stack + [t.name];
    assert TreeEvents(t)[1..] == ForestEvents(t.callees) + [Return];
    ForestKeepsStack(pushed, t.callees);
    ReplayAppend(pushed, ForestEvents(t.callees), [Return]);
    assert pushed[..|pushed| - 1] == stack;
  }

  /** The events of `parse_lines` as written: its own `_call`, the `reset`,
      the paired calls made while the document is built (none when the
      blocks are taken lazily), and its own `_return`. */
  function ParseLinesEvents(built: seq<CallTree>): seq<DebugEvent> {
    [Call("parse_lines"), ResetStack] + ForestEvents(built) + [Return]
  }

  /** `parse_lines` as written raises `IndexError` on every input, from any
      debug stack, because the pop at its `_return` meets the stack that
      `reset` emptied; `parse_string` calls it and raises with it. */
  lemma {:induction false} ParseLinesRaises(stack: seq<string>, built: seq<CallTree>)
    ensures Replay(stack, ParseLinesEvents(built)) == None
    ensures Replay(stack, [Call("parse_string")] + ParseLinesEvents(built) + [Return]) == None
  {
    var events := ParseLinesEvents(built);
    assert events == [Call("parse_lines"), ResetStack] + (ForestEvents(built) + [Return]);
    assert Replay(stack, events) == Replay([], ForestEvents(built) + [Return]);
    ForestKeepsStack([], built);
    ReplayAppend([], ForestEvents(built), [Return]);
    ReplayAppend(stack, [Call("parse_string")], events);
    ReplayAppend(stack, [Call("parse_string")] + events, [Return]);
  }
}
