/** The per-thread stack of cleanup handlers: frames in guest memory, linked
    through their prev fields, and the holder that runs what is left when the
    thread ends. */
module Cleanup {

  /** What a frame calls. */
  datatype Handler = Handler(routine: nat, arg: nat)

  class Frame {
    var prev: Frame?
    var routine: nat
    var arg: nat

    constructor () {
      prev, routine, arg := null, 0, 0;
    }

    function Calls(): Handler
      reads this
    {
      Handler(routine, arg)
    }
  }

  ghost function FrameAt(fs: seq<Frame>, i: nat): Frame? {
    if i < |fs| then fs[i] else null
  }

  /** fs is the stack under head, top first. */
  ghost predicate Linked(head: Frame?, fs: seq<Frame>)
    reads fs
  {
    && head == FrameAt(fs, 0)
    && (forall i {:trigger fs[i].prev} :: 0 <= i < |fs| ==> fs[i].prev == FrameAt(fs, i + 1))
    && (forall i, j :: 0 <= i < j < |fs| ==> fs[i] != fs[j])
  }

  class Holder {
    var current: Frame?

    /** The handlers called so far.  Handlers leave the stack alone. */
    var ran: seq<Handler>

    /** The pushed frames and what they call, top first. */
    ghost var frames: seq<Frame>
    ghost var pending: seq<Handler>

    ghost predicate Valid()
      reads `current, `frames, `pending, frames
    {
      && Linked(current, frames)
      && |pending| == |frames|
      && forall i :: 0 <= i < |frames| ==> frames[i].Calls() == pending[i]
    }

    constructor ()
      ensures Valid() && frames == [] && pending == [] && ran == []
    {
      current := null;
      ran := [];
      frames, pending := [], [];
    }

    method Push(c: Frame, cb: nat, arg: nat)
      requires Valid() && c !in frames
      modifies this, c
      ensures Valid() && frames == [c] + old(frames) && ran == old(ran)
      ensures pending == [Handler(cb, arg)] + old(pending)
    {
      c.prev := current;
      c.routine := cb;
      c.arg := arg;
      current := c;
      frames, pending := [c] + frames, [Handler(cb, arg)] + pending;
    }

    /** Popping a frame drops it and whatever was pushed after it. */
    method Pop(c: Frame, execute: bool, ghost i: nat)
      requires Valid() && i < |frames| && frames[i] == c
      modifies this
      ensures Valid() && frames == old(frames)[i + 1..] && pending == old(pending)[i + 1..]
      ensures ran == old(ran) + if execute then [old(pending)[i]] else []
    {
      current := c.prev;
      ghost var rest := frames[i + 1..];
      assert forall k :: 0 <= k < |rest| ==> rest[k] == frames[i + 1 + k];
      frames, pending := rest, pending[i + 1..];
      if execute {
        ran := ran + [c.Calls()];
      }
    }

    /** The end of the thread calls every frame still pushed, last in first. */
    method Destroy()
      requires Valid()
      modifies `ran
      ensures ran == old(ran) + pending
    {
      var p := current;
      ghost var i := 0;
      while p != null
        invariant 0 <= i <= |frames| && p == FrameAt(frames, i)
        invariant ran == old(ran) + pending[..i]
        decreases |frames| - i
      {
        assert pending[..i + 1] == pending[..i] + [p.Calls()];
        ran := ran + [p.Calls()];
        p := p.prev;
        i := i + 1;
      }
    }
  }

  // ---- Programs -------------------------------------------------------------

  /** Pushes and pops come in pairs around a body; a body may end the thread. */
  datatype Block =
    | Exit
    | Then(first: Block, second: Block)
    | Scope(cb: nat, arg: nat, body: Block, execute: bool)
    | Nothing

  datatype Outcome = Outcome(ran: seq<Handler>, exited: bool)

  /** Cleanup without a stack: a scope calls its own handler last, exactly once
      when it is popped to execute or the thread ends inside it, else never. */
  function Unwound(b: Block): Outcome {
    match b
    case Nothing => Outcome([], false)
    case Exit => Outcome([], true)
    case Then(first, second) =>
      var o := Unwound(first);
      if o.exited then o
      else var p := Unwound(second); Outcome(o.ran + p.ran, p.exited)
    case Scope(cb, arg, body, execute) =>
      var o := Unwound(body);
      Outcome(o.ran + (if o.exited || execute then [Handler(cb, arg)] else []), o.exited)
  }

  /** Runs b on the stack: a balanced run gives the stack back, and an exit
      leaves above the old stack exactly the handlers that are due. */
  method Run(h: Holder, b: Block) returns (exited: bool, ghost fs: seq<Frame>, ghost due: seq<Handler>)
    requires h.Valid()
    modifies h
    ensures h.Valid() && exited == Unwound(b).exited && |fs| == |due| && (exited || due == [])
    ensures h.frames == fs + old(h.frames) && h.pending == due + old(h.pending)
    ensures h.ran + due == old(h.ran) + Unwound(b).ran
    decreases b, 0
  {
    exited, fs, due := false, [], [];
    match b
    case Nothing =>
    case Exit =>
      exited := true;
    case Then(first, second) =>
      exited, fs, due := Run(h, first);
      if !exited {
        exited, fs, due := Run(h, second);
        Joined(old(h.ran), Unwound(first).ran, Unwound(second).ran);
      }
    case Scope(cb, arg, body, execute) =>
      exited, fs, due := RunScope(h, cb, arg, body, execute);
  }

  /** A push, a body and the matching pop. */
  method RunScope(h: Holder, cb: nat, arg: nat, body: Block, execute: bool)
    returns (exited: bool, ghost fs: seq<Frame>, ghost due: seq<Handler>)
    requires h.Valid()
    modifies h
    ensures h.Valid() && exited == Unwound(body).exited && |fs| == |due| && (exited || due == [])
    ensures h.frames == fs + old(h.frames) && h.pending == due + old(h.pending)
    ensures h.ran + due == old(h.ran) + Unwound(Scope(cb, arg, body, execute)).ran
    decreases body, 1
  {
    var c := new Frame();
    h.Push(c, cb, arg);
    exited, fs, due := Run(h, body);
    if !exited {
      assert h.frames[0] == c;
      h.Pop(c, execute, 0);
    } else {
      Joined(fs, [c], old(h.frames));
      Joined(due, [Handler(cb, arg)], old(h.pending));
      fs, due := fs + [c], due + [Handler(cb, arg)];
    }
    Joined(old(h.ran), Unwound(body).ran, [Handler(cb, arg)]);
  }

  lemma Joined<T>(a: seq<T>, b: seq<T>, c: seq<T>)
    ensures a + b + c == a + (b + c)
  {
  }

  /** A whole thread, with handlers run at its end, behaves as if there were no
      stack at all. */
  method RunThread(b: Block) returns (h: Holder)
    ensures h.ran == Unwound(b).ran
  {
    h := new Holder();
    var exited, fs, due := Run(h, b);
    assert h.pending == due;
    h.Destroy();
  }
}
