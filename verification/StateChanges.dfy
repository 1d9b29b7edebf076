/**
 Change detection over polled states, as used for BGP sessions (by neighbour
 address) and for links (by port): an event for each observed change of state.
 */
module StateChanges {

  datatype Transition = Transition(key: string, oldState: string, newState: string)

  type Poll = map<string, string>

  /** The states seen for a key, in the polls that mention it. */
  function Observations(polls: seq<Poll>, key: string): seq<string> {
    if polls == [] then []
    else
      var rest, poll := Observations(polls[..|polls| - 1], key), polls[|polls| - 1];
      if key in poll then rest + [poll[key]] else rest
  }

  /** The sequence with immediate repeats removed. */
  function Destutter(states: seq<string>): seq<string> {
    if states == [] then []
    else
      var rest, last := Destutter(states[..|states| - 1]), states[|states| - 1];
      if rest != [] && rest[|rest| - 1] == last then rest else rest + [last]
  }

  /** The consecutive pairs of a sequence, as transitions of `key`. */
  function Steps(key: string, states: seq<string>): seq<Transition> {
    if |states| <= 1 then []
    else seq(|states| - 1, i requires 0 <= i < |states| - 1 => Transition(key, states[i], states[i + 1]))
  }

  /** The recorded transitions of one key. */
  function RecordedFor(log: seq<Transition>, key: string): seq<Transition> {
    if log == [] then []
    else
      var rest, last := RecordedFor(log[..|log| - 1], key), log[|log| - 1];
      if last.key == key then rest + [last] else rest
  }

  /** What is stored and recorded about a key tells exactly its de-stuttered history. */
  ghost predicate Tracks(last: map<string, string>, log: seq<Transition>, polls: seq<Poll>, key: string) {
    var seen := Observations(polls, key);
    && RecordedFor(log, key) == Steps(key, Destutter(seen))
    && (key in last <==> seen != [])
    && (key in last ==> last[key] == seen[|seen| - 1])
  }

  lemma {:induction false} DestutterEnds(states: seq<string>)
    requires states != []
    ensures Destutter(states) != [] && Destutter(states)[|Destutter(states)| - 1] == states[|states| - 1]
  {
    if |states| > 1 {
      DestutterEnds(states[..|states| - 1]);
    }
  }

  ghost predicate Moves(d: seq<string>) {
    forall i, j :: 0 <= i < |d| && j == i + 1 < |d| ==> d[i] != d[j]
  }

  lemma {:induction false} DestutterMoves(states: seq<string>)
    ensures Moves(Destutter(states))
  {
    if states == [] {
    } else {
      DestutterMoves(states[..|states| - 1]);
    }
  }

  /**
   The recorded changes of a key chain, contain no change from a state to itself, start at the
   first state observed and end at the last; nothing is recorded exactly when the state never changed.
   */
  lemma RecordedChangesChain(last: map<string, string>, log: seq<Transition>, polls: seq<Poll>, key: string)
    requires Tracks(last, log, polls, key)
    ensures var r, seen := RecordedFor(log, key), Observations(polls, key);
            && (forall i :: 0 <= i < |r| ==> r[i].oldState != r[i].newState)
            && (forall i :: 0 <= i < |r| - 1 ==> r[i].newState == r[i + 1].oldState)
            && (r != [] ==> r[0].oldState == seen[0] && key in last && r[|r| - 1].newState == last[key])
            && (r == [] <==> forall i :: 0 <= i < |seen| ==> seen[i] == seen[0])
  {
    var seen := Observations(polls, key);
    DestutterMoves(seen);
    if seen != [] {
      DestutterEnds(seen);
      DestutterStarts(seen);
      DestutterConstant(seen);
    }
  }

  lemma {:induction false} DestutterStarts(states: seq<string>)
    requires states != []
    ensures Destutter(states) != [] && Destutter(states)[0] == states[0]
  {
    if |states| > 1 {
      DestutterStarts(states[..|states| - 1]);
    }
  }

  lemma {:induction false} DestutterConstant(states: seq<string>)
    requires states != []
    ensures |Destutter(states)| == 1 <==> forall i :: 0 <= i < |states| ==> states[i] == states[0]
  {
    if |states| > 1 {
      var init := states[..|states| - 1];
      DestutterConstant(init);
      DestutterStarts(init);
      DestutterEnds(init);
      if forall i :: 0 <= i < |states| ==> states[i] == states[0] {
        assert forall i :: 0 <= i < |init| ==> init[i] == states[i];
      }
      if |Destutter(states)| == 1 {
        forall i | 0 <= i < |states| ensures states[i] == states[0] {
          if i < |init| {
            assert init[i] == states[i];
          }
        }
      }
    }
  }

  lemma {:induction false} DestutterAppend(seen: seq<string>, state: string)
    ensures Destutter(seen + [state]) ==
            if seen != [] && seen[|seen| - 1] == state then Destutter(seen) else Destutter(seen) + [state]
  {
    assert (seen + [state])[..|seen|] == seen;
    if seen != [] {
      DestutterEnds(seen);
    }
  }

  lemma StepsAppend(key: string, d: seq<string>, state: string)
    requires d != []
    ensures Steps(key, d + [state]) == Steps(key, d) + [Transition(key, d[|d| - 1], state)]
  {
  }

  /** One more observation of a key. */
  lemma ObservedStep(seen: seq<string>, state: string, key: string)
    ensures var d, d' := Destutter(seen), Destutter(seen + [state]);
            if seen == [] then Steps(key, d') == []
            else if seen[|seen| - 1] == state then Steps(key, d') == Steps(key, d)
            else Steps(key, d') == Steps(key, d) + [Transition(key, seen[|seen| - 1], state)]
  {
    DestutterAppend(seen, state);
    if seen != [] {
      DestutterEnds(seen);
      StepsAppend(key, Destutter(seen), state);
    }
  }

  lemma TracksStep(last: map<string, string>, log: seq<Transition>, polls: seq<Poll>, poll: Poll, key: string)
    requires Tracks(last, log, polls, key) && key in poll
    ensures var log' := if key in last && last[key] != poll[key]
                        then log + [Transition(key, last[key], poll[key])] else log;
            Tracks(last[key := poll[key]], log', polls + [poll], key)
  {
    assert (polls + [poll])[..|polls|] == polls;
    ObservedStep(Observations(polls, key), poll[key], key);
    if key in last && last[key] != poll[key] {
      assert (log + [Transition(key, last[key], poll[key])])[..|log|] == log;
    }
  }

  lemma OthersUnaffected(last: map<string, string>, log: seq<Transition>, polls: seq<Poll>, key: string,
                         t: Transition, state: string, other: string)
    requires t.key == key && other != key && Tracks(last, log, polls, other)
    ensures Tracks(last[key := state], log, polls, other)
    ensures Tracks(last[key := state], log + [t], polls, other)
  {
    assert (log + [t])[..|log|] == log;
  }

  lemma NotMentioned(polls: seq<Poll>, poll: Poll, key: string)
    requires key !in poll
    ensures Observations(polls + [poll], key) == Observations(polls, key)
  {
    assert (polls + [poll])[..|polls|] == polls;
  }

  ghost predicate Mentioned(events: seq<Transition>, n: nat, key: string) {
    exists i :: n <= i < |events| && events[i].key == key
  }

  /** The keys outside `todo` are checked: their states are stored and their changes recorded, from event n on. */
  ghost predicate Checked(last0: map<string, string>, poll: Poll, todo: set<string>,
                          last: map<string, string>, events: seq<Transition>, n: nat) {
    && (forall key :: key in last <==> key in last0 || (key in poll && key !in todo))
    && (forall key :: key in last ==> last[key] == if key in poll && key !in todo then poll[key] else last0[key])
    && (forall i :: n <= i < |events| ==>
          var t := events[i];
          && t.key in poll && t.key !in todo && t.key in last0 && t.oldState != t.newState
          && t.oldState == last0[t.key] && t.newState == poll[t.key])
    && (forall key :: key in poll && key !in todo && key in last0 && last0[key] != poll[key] ==> Mentioned(events, n, key))
    && (forall i, j :: n <= i < j < |events| ==> events[i].key != events[j].key)
  }

  lemma MentionedStays(events: seq<Transition>, t: Transition, n: nat)
    requires n <= |events|
    ensures Mentioned(events + [t], n, t.key)
    ensures forall key :: Mentioned(events, n, key) ==> Mentioned(events + [t], n, key)
  {
    var all := events + [t];
    assert all[|events|] == t;
    forall key | Mentioned(events, n, key) ensures Mentioned(all, n, key) {
      var i :| n <= i < |events| && events[i].key == key;
      assert all[i].key == key;
    }
  }

  lemma CheckedStep(last0: map<string, string>, poll: Poll, todo: set<string>,
                    last: map<string, string>, events: seq<Transition>, n: nat, key: string)
    requires Checked(last0, poll, todo, last, events, n) && key in todo && key in poll && n <= |events|
    ensures var events' := if key in last && last[key] != poll[key]
                           then events + [Transition(key, last[key], poll[key])] else events;
            Checked(last0, poll, todo - {key}, last[key := poll[key]], events', n)
  {
    if key in last && last[key] != poll[key] {
      MentionedStays(events, Transition(key, last[key], poll[key]), n);
    }
  }

  function PollsFor(before: seq<Poll>, poll: Poll, todo: set<string>, key: string): seq<Poll> {
    if key in todo then before else before + [poll]
  }

  /** The keys outside `todo` are tracked with this poll, the others without it. */
  ghost predicate Halfway(last: map<string, string>, events: seq<Transition>, before: seq<Poll>, poll: Poll, todo: set<string>) {
    forall key :: Tracks(last, events, PollsFor(before, poll, todo, key), key)
  }

  lemma AllTodo(last: map<string, string>, events: seq<Transition>, before: seq<Poll>, poll: Poll)
    requires forall key :: Tracks(last, events, before, key)
    ensures Halfway(last, events, before, poll, poll.Keys)
  {
    forall key ensures Tracks(last, events, PollsFor(before, poll, poll.Keys, key), key) {
      assert Tracks(last, events, before, key);
      if key !in poll {
        NotMentioned(before, poll, key);
      }
    }
  }

  lemma NothingTodo(last: map<string, string>, events: seq<Transition>, before: seq<Poll>, poll: Poll)
    requires Halfway(last, events, before, poll, {})
    ensures forall key :: Tracks(last, events, before + [poll], key)
  {
    forall key ensures Tracks(last, events, before + [poll], key) {
      assert Tracks(last, events, PollsFor(before, poll, {}, key), key);
    }
  }

  lemma HalfwayStep(last: map<string, string>, events: seq<Transition>, before: seq<Poll>, poll: Poll, todo: set<string>, key: string)
    requires Halfway(last, events, before, poll, todo) && key in todo && key in poll
    ensures var events' := if key in last && last[key] != poll[key]
                           then events + [Transition(key, last[key], poll[key])] else events;
            Halfway(last[key := poll[key]], events', before, poll, todo - {key})
  {
    var events' := if key in last && last[key] != poll[key]
                   then events + [Transition(key, last[key], poll[key])] else events;
    assert Tracks(last, events, PollsFor(before, poll, todo, key), key);
    TracksStep(last, events, before, poll, key);
    forall other ensures Tracks(last[key := poll[key]], events', PollsFor(before, poll, todo - {key}, other), other) {
      if other != key {
        var polls := PollsFor(before, poll, todo, other);
        assert Tracks(last, events, polls, other);
        OthersUnaffected(last, events, polls, key, Transition(key, if key in last then last[key] else "", poll[key]), poll[key], other);
      }
    }
  }

  class StateTracker {
    var lastStates: map<string, string>
    /** The change events recorded, in order. */
    var events: seq<Transition>
    ghost var polls: seq<Poll>

    ghost predicate Valid()
      reads this
    {
      forall key :: Tracks(lastStates, events, polls, key)
    }

    constructor ()
      ensures Valid() && events == [] && polls == []
    {
      lastStates, events, polls := map[], [], [];
    }

    /** Main result: after any sequence of polls, each key's events are the steps of its de-stuttered history. */
    method CheckChanges(poll: Poll)
      requires Valid()
      modifies this
      ensures Valid()
      ensures polls == old(polls) + [poll]
      ensures old(events) <= events
      ensures forall key :: key in lastStates <==> key in old(lastStates) || key in poll
      ensures forall key :: key in lastStates ==>
                lastStates[key] == if key in poll then poll[key] else old(lastStates)[key]
      ensures forall i :: |old(events)| <= i < |events| ==>
                var t := events[i];
                && t.key in poll && t.key in old(lastStates) && t.oldState != t.newState
                && t.oldState == old(lastStates)[t.key] && t.newState == poll[t.key]
      ensures forall key :: key in poll && key in old(lastStates) && old(lastStates)[key] != poll[key] ==>
                Mentioned(events, |old(events)|, key)
      ensures forall i, j :: |old(events)| <= i < j < |events| ==> events[i].key != events[j].key
    {
      var todo := poll.Keys;
      ghost var before := polls;
      polls := polls + [poll];
      AllTodo(lastStates, events, before, poll);
      while todo != {}
        invariant todo <= poll.Keys
        invariant polls == before + [poll] && old(events) <= events
        invariant Halfway(lastStates, events, before, poll, todo)
        invariant Checked(old(lastStates), poll, todo, lastStates, events, |old(events)|)
      {
        var key :| key in todo;
        var newState := poll[key];
        HalfwayStep(lastStates, events, before, poll, todo, key);
        CheckedStep(old(lastStates), poll, todo, lastStates, events, |old(events)|, key);
        if key in lastStates && lastStates[key] != newState {
          events := events + [Transition(key, lastStates[key], newState)];
        }
        lastStates := lastStates[key := newState];
        todo := todo - {key};
      }
      NothingTodo(lastStates, events, before, poll);
    }
  }
}
