/**
 * The run loop. The network calls it makes (fetching the history, asking
 * the completion service, posting) are replaced by a script of `Turn`s, one
 * per pass of the loop, holding what each call answered; the loop's
 * counter and branching are modelled as they are. Sleeps are recorded as
 * events with their durations or bounds instead of being taken.
 */
module RunLoop {
  import opened Wrappers
  import opened Config
  import opened PromptBuilder
  import opened ReplyFormat

  /**
   * What the outside world answers in one pass: the fetched history (`None`
   * when the fetch failed), the completion service's text (`None` when the
   * call failed) and whether the post was confirmed.
   */
  datatype Turn = Turn(history: Option<seq<Message>>, reply: Option<string>, delivered: bool)

  /** A random sleep of a whole number of seconds drawn from `lo..hi`, both included. */
  datatype SleepRange = SleepRange(lo: int, hi: int)

  /** What one pass of the loop did. */
  datatype Event =
    | HistoryUnavailable                 // no history: the run ends
    | HeldOff(seconds: int)              // reply not allowed: fixed wait, then fetch again
    | NoReply(prompt: string)            // prompt sent, nothing came back: fetch again at once
    | Posted(prompt: string, text: string, delivered: bool, pause: Option<SleepRange>)
                                         // reply posted (confirmed or not), then maybe a random sleep

  /** Why a run stopped: target reached, history unavailable, or the script ran out first. */
  datatype Status = Finished | FetchFailed | Pending

  /** The counter at the end, the events in order, and why the run stopped. */
  datatype Trace = Trace(count: int, events: seq<Event>, status: Status)

  datatype StepResult = StepResult(event: Event, count: int)

  /** Number of confirmed posts among `evs`. */
  function Deliveries(evs: seq<Event>): nat
  {
    if evs == [] then 0
    else (if evs[0].Posted? && evs[0].delivered then 1 else 0) + Deliveries(evs[1..])
  }

  /**
   * One pass of the loop body with counter `count`. An empty or missing
   * history ends the run; a window in which the watched user shows up (while
   * waiting is on) makes the bot wait `isWaitTime` seconds; a missing or empty
   * completion sends it straight back to fetching; otherwise the normalised
   * reply is posted, the counter goes up by one only when the post is
   * confirmed, and a random sleep follows whenever the counter is still below
   * the target, whether the post was confirmed or not.
   */
  function Step(s: Settings, count: int, t: Turn): (r: StepResult)
    ensures r.count == count + (if r.event.Posted? && r.event.delivered then 1 else 0)
    ensures r.event.HistoryUnavailable? <==> t.history.None? || t.history.value == []
    ensures r.event.HeldOff? <==>
      !r.event.HistoryUnavailable? && !CanReply(Window(t.history.value), s)
    ensures r.event.HeldOff? ==> r.event.seconds == s.isWaitTime
    ensures r.event.NoReply? || r.event.Posted? ==> r.event.prompt == Prompt(t.history.value, s)
    ensures r.event.Posted? <==>
      !r.event.HistoryUnavailable? && !r.event.HeldOff? && t.reply.Some? && t.reply.value != ""
    ensures r.event.Posted? ==>
      && Some(r.event.text) == FormatReply(t.reply)
      && r.event.delivered == t.delivered
      && (r.event.pause.Some? <==> r.count < s.maxLoop)
      && (r.event.pause.Some? ==> r.event.pause.value == SleepRange(s.minSleep, s.maxSleep))
  {
    if t.history.None? || t.history.value == [] then
      StepResult(HistoryUnavailable, count)
    else
      var ms := t.history.value;
      if !CanReply(Window(ms), s) then
        StepResult(HeldOff(s.isWaitTime), count)
      else if t.reply.None? || t.reply.value == "" then
        StepResult(NoReply(Prompt(ms, s)), count)
      else
        var next := if t.delivered then count + 1 else count;
        var pause := if next < s.maxLoop then Some(SleepRange(s.minSleep, s.maxSleep)) else None;
        StepResult(Posted(Prompt(ms, s), FormatReply(t.reply).value, t.delivered, pause), next)
  }

  /**
   * The whole run from counter `count` over the remaining turns: it stops as
   * soon as the counter reaches the target, when a history is unavailable,
   * or when no turn is left.
   */
  function Execute(s: Settings, count: int, ts: seq<Turn>): (r: Trace)
    ensures count <= r.count
    ensures r.status == Finished <==> r.count >= s.maxLoop
    decreases |ts|
  {
    if count >= s.maxLoop then Trace(count, [], Finished)
    else if ts == [] then Trace(count, [], Pending)
    else
      var r := Step(s, count, ts[0]);
      if r.event.HistoryUnavailable? then Trace(count, [r.event], FetchFailed)
      else
        var rest := Execute(s, r.count, ts[1..]);
        Trace(rest.count, [r.event] + rest.events, rest.status)
  }

  /** `tr` with `evs` put in front of its events. */
  function Prefixed(evs: seq<Event>, tr: Trace): Trace
  {
    Trace(tr.count, evs + tr.events, tr.status)
  }

  lemma PrefixedTwice(evs: seq<Event>, e: Event, tr: Trace)
    ensures Prefixed(evs, Prefixed([e], tr)) == Prefixed(evs + [e], tr)
  {
    assert evs + ([e] + tr.events) == (evs + [e]) + tr.events;
  }

  /** The final counter is the starting one plus the number of confirmed posts. */
  lemma {:induction false} ExecuteCountsDeliveries(s: Settings, count: int, ts: seq<Turn>)
    ensures Execute(s, count, ts).count == count + Deliveries(Execute(s, count, ts).events)
    decreases |ts|
  {
    if count < s.maxLoop && ts != [] {
      var r := Step(s, count, ts[0]);
      if !r.event.HistoryUnavailable? {
        ExecuteCountsDeliveries(s, r.count, ts[1..]);
        var rest := Execute(s, r.count, ts[1..]);
        assert ([r.event] + rest.events)[1..] == rest.events;
      }
    }
  }

  /**
   * The run is Finished exactly when the counter has reached the target (at
   * once when the target is zero or negative). Starting at or below the
   * target, the counter never passes it, so a Finished run ends exactly on it.
   */
  lemma {:induction false} ExecuteReachesTarget(s: Settings, count: int, ts: seq<Turn>)
    ensures Execute(s, count, ts).status == Finished <==> Execute(s, count, ts).count >= s.maxLoop
    ensures count <= s.maxLoop ==> count <= Execute(s, count, ts).count <= s.maxLoop
    ensures count <= s.maxLoop ==>
      (Execute(s, count, ts).status == Finished <==> Execute(s, count, ts).count == s.maxLoop)
    decreases |ts|
  {
    if count < s.maxLoop && ts != [] {
      var r := Step(s, count, ts[0]);
      if !r.event.HistoryUnavailable? {
        ExecuteReachesTarget(s, r.count, ts[1..]);
      }
    }
  }

  /**
   * Event `k` of `tr`, if a post, is followed by a random sleep drawn from the
   * configured bounds unless it is the last event of a Finished run.
   */
  predicate PauseFollowsPost(s: Settings, tr: Trace, k: int)
  {
    0 <= k < |tr.events| && tr.events[k].Posted? ==>
      && (tr.events[k].pause.None? <==> k == |tr.events| - 1 && tr.status == Finished)
      && (tr.events[k].pause.Some? ==> tr.events[k].pause.value == SleepRange(s.minSleep, s.maxSleep))
  }

  /**
   * Every post, confirmed or not, is followed by a random sleep drawn from
   * the configured bounds, except the post that reaches the target, which is
   * the last event of a Finished run.
   */
  lemma {:induction false} ExecutePausesAfterPosts(s: Settings, count: int, ts: seq<Turn>)
    ensures forall k :: PauseFollowsPost(s, Execute(s, count, ts), k)
    decreases |ts|
  {
    var tr := Execute(s, count, ts);
    if count < s.maxLoop && ts != [] {
      var r := Step(s, count, ts[0]);
      if !r.event.HistoryUnavailable? {
        ExecutePausesAfterPosts(s, r.count, ts[1..]);
        var rest := Execute(s, r.count, ts[1..]);
        assert tr.events == [r.event] + rest.events && tr.status == rest.status;
        forall k
          ensures PauseFollowsPost(s, tr, k)
        {
          if k == 0 && r.event.Posted? && r.count < s.maxLoop {
            // below the target after this post: an empty rest leaves the counter
            // where it is, so the rest cannot be Finished
            ExecuteReachesTarget(s, r.count, ts[1..]);
            ExecuteCountsDeliveries(s, r.count, ts[1..]);
            assert rest.status == Finished ==> rest.events != [];
          } else if 0 < k < |tr.events| {
            assert tr.events[k] == rest.events[k - 1];
            assert PauseFollowsPost(s, rest, k - 1);
          }
        }
      }
    }
  }

  /** A missing history can only be the last event, and it is the last one exactly when the run failed on a fetch. */
  lemma {:induction false} ExecuteStopsOnMissingHistory(s: Settings, count: int, ts: seq<Turn>)
    ensures var tr := Execute(s, count, ts);
      && (forall k :: 0 <= k < |tr.events| && tr.events[k].HistoryUnavailable? ==> k == |tr.events| - 1)
      && (tr.status == FetchFailed <==> tr.events != [] && tr.events[|tr.events| - 1].HistoryUnavailable?)
    decreases |ts|
  {
    var tr := Execute(s, count, ts);
    if count < s.maxLoop && ts != [] {
      var r := Step(s, count, ts[0]);
      if !r.event.HistoryUnavailable? {
        ExecuteStopsOnMissingHistory(s, r.count, ts[1..]);
        var rest := Execute(s, r.count, ts[1..]);
        assert forall k :: 0 < k < |tr.events| ==> tr.events[k] == rest.events[k - 1];
        if rest.events != [] {
          assert tr.events[|tr.events| - 1] == rest.events[|rest.events| - 1];
        }
      }
    }
  }

  /**
   * One turn is used per pass: a run never uses more turns than it is given,
   * and a run left Pending used all of them.
   */
  lemma {:induction false} ExecuteUsesOneTurnPerPass(s: Settings, count: int, ts: seq<Turn>)
    ensures |Execute(s, count, ts).events| <= |ts|
    ensures Execute(s, count, ts).status == Pending ==> |Execute(s, count, ts).events| == |ts|
    decreases |ts|
  {
    if count < s.maxLoop && ts != [] {
      var r := Step(s, count, ts[0]);
      if !r.event.HistoryUnavailable? {
        ExecuteUsesOneTurnPerPass(s, r.count, ts[1..]);
      }
    }
  }

  /**
   * The loop: starting from zero confirmed posts it keeps going while the
   * counter is below `maxLoop`, builds the prompt from each fetched history,
   * and follows the branches of `Step`. It returns when the target is
   * reached, when a history is unavailable, or when the script of turns is
   * used up.
   */
  method Run(s: Settings, turns: seq<Turn>) returns (chatSuccess: int, events: seq<Event>, status: Status)
    requires Valid(s)
    ensures Trace(chatSuccess, events, status) == Execute(s, 0, turns)
  {
    chatSuccess := 0;
    events := [];
    var i := 0;
    while chatSuccess < s.maxLoop
      invariant 0 <= i <= |turns|
      invariant Execute(s, 0, turns) == Prefixed(events, Execute(s, chatSuccess, turns[i..]))
      decreases |turns| - i
    {
      if i == |turns| {
        status := Pending;
        return;
      }
      var turn := turns[i];
      assert turns[i..][0] == turn && turns[i..][1..] == turns[i + 1..];
      ghost var r := Step(s, chatSuccess, turn);
      ghost var rest := Execute(s, r.count, turns[i + 1..]);
      assert Execute(s, chatSuccess, turns[i..]) ==
        if r.event.HistoryUnavailable? then Trace(chatSuccess, [r.event], FetchFailed)
        else Prefixed([r.event], rest);
      i := i + 1;
      if turn.history.None? || turn.history.value == [] {
        assert r.event == HistoryUnavailable;
        events := events + [HistoryUnavailable];
        status := FetchFailed;
        return;
      }
      var prompt, canReply := PreparePrompt(turn.history.value, s);
      if !canReply {
        assert r == StepResult(HeldOff(s.isWaitTime), chatSuccess);
        PrefixedTwice(events, r.event, rest);
        events := events + [HeldOff(s.isWaitTime)];
        continue;
      }
      if turn.reply.None? || turn.reply.value == "" {
        assert r == StepResult(NoReply(prompt), chatSuccess);
        PrefixedTwice(events, r.event, rest);
        events := events + [NoReply(prompt)];
        continue;
      }
      var formatted := FormatReply(turn.reply).value;
      if turn.delivered {
        chatSuccess := chatSuccess + 1;
      }
      var pause := None;
      if chatSuccess < s.maxLoop {
        pause := Some(SleepRange(s.minSleep, s.maxSleep));
      }
      assert r == StepResult(Posted(prompt, formatted, turn.delivered, pause), chatSuccess);
      PrefixedTwice(events, r.event, rest);
      events := events + [Posted(prompt, formatted, turn.delivered, pause)];
    }
    status := Finished;
  }
}
