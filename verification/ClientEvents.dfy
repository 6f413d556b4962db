/** The trimmed, indexed event log of the client, and what a collector reads from it. */
module ClientEvents {
  import opened Options

  type Message = string

  datatype Event =
    | AgentStart
    | MessageEnd(message: Message)
    | AgentEnd(isTerminal: Option<bool>, messages: seq<Message>, messageCount: Option<int>)
    | OtherEvent(kind: string)

  datatype Indexed = Indexed(index: nat, event: Event)

  predicate Terminal(e: Event) {
    e.AgentEnd? && (e.isTerminal == None || e.isTerminal == Some(true))
  }

  function Terminals(log: seq<Event>): nat {
    if log == [] then 0 else Terminals(log[..|log| - 1]) + if Terminal(log[|log| - 1]) then 1 else 0
  }

  /** `t` is the first terminal agent_end from `start` on. */
  ghost predicate FirstTerminal(log: seq<Event>, start: nat, t: nat) {
    start <= t < |log| && Terminal(log[t]) && forall k :: start <= k < t ==> !Terminal(log[k])
  }

  ghost predicate NoTerminal(log: seq<Event>, start: nat) {
    forall k :: start <= k < |log| ==> !Terminal(log[k])
  }

  // ----- the log -----

  /** The retained events are the newest of all events ever appended, each under its own index. */
  ghost predicate Retains(log: seq<Event>, offset: nat, events: seq<Indexed>) {
    && offset + |events| == |log|
    && (forall i :: 0 <= i < |events| ==> events[i] == Indexed(offset + i, log[offset + i]))
    && (log != [] ==> events != [])
  }

  lemma {:induction false} AppendRetains(log: seq<Event>, offset: nat, events: seq<Indexed>, e: Event, trim: nat)
    requires Retains(log, offset, events) && trim <= |events|
    ensures Retains(log + [e], offset + trim, (events + [Indexed(offset + |events|, e)])[trim..])
  {
  }

  class EventLog {
    const maxHistory: int
    var events: seq<Indexed>
    var offset: nat
    var completed: nat
    // Every event ever appended, and the runs that ended without one.
    ghost var log: seq<Event>
    ghost var failures: nat

    constructor (maxHistory: int)
      ensures this.maxHistory == maxHistory && Valid() && log == [] && failures == 0
    {
      this.maxHistory := maxHistory;
      events, offset, completed, log, failures := [], 0, 0, [], 0;
    }

    ghost predicate Valid()
      reads this
    {
      && Retains(log, offset, events)
      && (maxHistory > 0 ==> |events| <= maxHistory)
      && completed == Terminals(log) + failures
    }

    method AppendEvent(e: Event)
      requires Valid()
      modifies this
      ensures Valid() && log == old(log) + [e] && failures == old(failures)
      ensures maxHistory > 0 ==> |events| == if old(|events|) < maxHistory then old(|events|) + 1 else maxHistory
    {
      var index := offset + |events|;
      var appended := events + [Indexed(index, e)];
      ghost var before := log;
      log := before + [e];
      assert log[..|log| - 1] == before;
      if Terminal(e) {
        completed := completed + 1;
      }
      if maxHistory > 0 && |appended| > maxHistory {
        var trim := |appended| - maxHistory;
        AppendRetains(before, offset, events, e, trim);
        events := appended[trim..];
        offset := offset + trim;
      } else {
        AppendRetains(before, offset, events, e, 0);
        events := appended;
      }
    }

    /** A scheduled run failed without an agent_end. */
    method RecordFailure()
      requires Valid()
      modifies this`completed, this`failures
      ensures Valid() && failures == old(failures) + 1
    {
      completed, failures := completed + 1, failures + 1;
    }

    method CurrentEventIndex() returns (index: nat)
      requires Valid()
      ensures index == |log|
    {
      index := offset + |events|;
    }

    /**
     * One look of a collector at the log: truncated exactly when an event from `start` on was trimmed away; otherwise
     * exactly the events from `start` through the first terminal agent_end, or all of them if there is none.
     */
    method Scan(start: nat) returns (truncated: bool, collected: seq<Event>, terminal: bool)
      requires Valid() && start <= |log|
      ensures truncated <==> start < offset
      ensures !truncated && terminal ==> exists t :: FirstTerminal(log, start, t) && collected == log[start..t + 1]
      ensures !truncated && !terminal ==> NoTerminal(log, start) && collected == log[start..]
    {
      truncated, collected, terminal := |events| != 0 && start < events[0].index, [], false;
      if truncated {
        return;
      }
      if |events| == 0 {
        assert log == [];
      }
      for i := 0 to |events|
        invariant Collected(log, start, offset + i, collected)
      {
        if events[i].index >= start {
          CollectNext(log, start, offset + i, collected);
          collected := collected + [events[i].event];
          if Terminal(events[i].event) {
            terminal := true;
            return;
          }
        }
      }
      assert log[start..|log|] == log[start..];
    }
  }

  /** Everything from `start` up to `upto` has been collected, and none of it was terminal. */
  ghost predicate Collected(log: seq<Event>, start: nat, upto: nat, collected: seq<Event>) {
    && upto <= |log|
    && collected == (if start <= upto then log[start..upto] else [])
    && forall k :: start <= k < upto ==> !Terminal(log[k])
  }

  lemma {:induction false} CollectNext(log: seq<Event>, start: nat, upto: nat, collected: seq<Event>)
    requires Collected(log, start, upto, collected) && start <= upto < |log|
    ensures collected + [log[upto]] == log[start..upto + 1]
    ensures if Terminal(log[upto]) then FirstTerminal(log, start, upto) else Collected(log, start, upto + 1, collected + [log[upto]])
  {
  }

  /** The first terminal event is unique: a successful wait has one possible result, however often the log was trimmed. */
  lemma {:induction false} OneCollection(log: seq<Event>, more: seq<Event>, start: nat, t: nat, u: nat)
    requires FirstTerminal(log, start, t) && FirstTerminal(log + more, start, u)
    ensures t == u && log[start..t + 1] == (log + more)[start..u + 1]
  {
    assert Terminal((log + more)[t]) && Terminal((log + more)[u]);
    assert forall k :: start <= k < t ==> log[k] == (log + more)[k];
  }

  // ----- messages of a run -----

  function MessagesOf(events: seq<Event>): seq<Message> {
    if events == [] then []
    else
      var n := |events| - 1;
      MessagesOf(events[..n]) + if events[n].MessageEnd? then [events[n].message] else []
  }

  /** Increasing, and exactly the positions of the message_end events. */
  ghost predicate MessageEndsAt(events: seq<Event>, ix: seq<nat>) {
    && (forall a, b :: 0 <= a < b < |ix| ==> ix[a] < ix[b])
    && (forall i: nat :: i in ix <==> i < |events| && events[i].MessageEnd?)
  }

  /** The messages are those of the message_end events, in the order of the log. */
  lemma {:induction false} MessagesInOrder(events: seq<Event>) returns (ix: seq<nat>)
    ensures MessageEndsAt(events, ix) && |MessagesOf(events)| == |ix|
    ensures forall m :: 0 <= m < |ix| ==> ix[m] < |events| && events[ix[m]] == MessageEnd(MessagesOf(events)[m])
    decreases |events|
  {
    ix := [];
    if events != [] {
      var n := |events| - 1;
      ix := MessagesInOrder(events[..n]);
      assert forall m :: 0 <= m < |ix| ==> ix[m] in ix;
      if events[n].MessageEnd? {
        ix := ix + [n];
      }
    }
  }

  /** The events after the last agent_start. */
  ghost predicate RunOf(events: seq<Event>, runStart: nat) {
    && runStart <= |events|
    && (forall k :: runStart <= k < |events| ==> !events[k].AgentStart?)
    && (runStart > 0 ==> events[runStart - 1].AgentStart?)
  }

  method FindRunStart(events: seq<Event>) returns (runStart: nat)
    ensures RunOf(events, runStart)
  {
    runStart := 0;
    var index: int := |events| - 1;
    while index >= 0
      invariant -1 <= index < |events| && runStart == 0
      invariant forall k :: index < k < |events| ==> !events[k].AgentStart?
    {
      if events[index].AgentStart? {
        return index + 1;
      }
      index := index - 1;
    }
  }

  datatype Completed = Messages(messages: seq<Message>) | TooFewRetained(wanted: int, have: nat)

  /** Puts the messages that a compacted agent_end left out back in front of those it kept. */
  method CompleteAgentEndMessages(events: seq<Event>, end: Event) returns (r: Completed)
    requires end.AgentEnd?
    ensures end.messageCount == None || end.messageCount.value <= |end.messages| ==> r == Messages(end.messages)
    ensures end.messageCount.Some? && end.messageCount.value > |end.messages| ==> exists runStart: nat ::
      RunOf(events, runStart) && Restored(MessagesOf(events[runStart..]), end, r)
  {
    if end.messageCount == None || end.messageCount.value <= |end.messages| {
      return Messages(end.messages);
    }
    var runStart := FindRunStart(events);
    var run := events[runStart..];
    var streamed := [];
    for i := 0 to |run|
      invariant streamed == MessagesOf(run[..i])
    {
      assert run[..i + 1][..i] == run[..i];
      if run[i].MessageEnd? {
        streamed := streamed + [run[i].message];
      } else {
        assert MessagesOf(run[..i + 1]) == MessagesOf(run[..i]) + [] == MessagesOf(run[..i]);
      }
    }
    assert run[..|run|] == run;
    var prefixCount := end.messageCount.value - |end.messages|;
    if prefixCount > |streamed| {
      r := TooFewRetained(prefixCount, |streamed|);
    } else {
      r := Messages(streamed[..prefixCount] + end.messages);
    }
  }

  ghost predicate Restored(streamed: seq<Message>, end: Event, r: Completed)
    requires end.AgentEnd? && end.messageCount.Some? && end.messageCount.value > |end.messages|
  {
    var prefixCount := end.messageCount.value - |end.messages|;
    if prefixCount > |streamed| then r == TooFewRetained(prefixCount, |streamed|)
    else r == Messages(streamed[..prefixCount] + end.messages)
  }
}
