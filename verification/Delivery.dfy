/**
 The relay's delivery rules for one (node, alert): which reports are
 forwarded, and what is remembered as sent.
 */
module Delivery {
  import opened Common
  import opened AlertProto

  const REMINDER_EVERY: Duration := 10 * MINUTE

  /** The last recorded state of one alert and when it was recorded. */
  datatype SentRec = SentRec(state: State, at: Time)

  /**
   What one delivery did: `accepted` is the answer to the reporter, `posted`
   says a message reached the chat, `recorded` that `record` was rewritten.
   */
  datatype Delivered = Delivered(accepted: bool, posted: bool, recorded: bool, record: Option<SentRec>)

  /** One report as the relay meets it: its clock, the mute in force, and whether a send would succeed. */
  datatype Post = Post(state: State, now: Time, muted: bool, sendOk: bool)

  predicate IsFiring(rec: Option<SentRec>) {
    rec.Some? && rec.value.state == Firing
  }

  /** Whether a firing or ok report is news, given the last record. */
  predicate IsNews(rec: Option<SentRec>, state: State, now: Time) {
    var repeated := rec.Some? && rec.value.state == state;
    if repeated && state == Ok then false
    else if repeated && now - rec.value.at < REMINDER_EVERY then false
    else if state == Ok && rec.None? then false
    else true
  }

  function Deliver(rec: Option<SentRec>, p: Post): Delivered {
    if p.state == Info then
      Delivered(p.sendOk, p.sendOk, false, rec)
    else if !IsNews(rec, p.state, p.now) then
      Delivered(true, false, false, rec)
    else if !p.muted && !p.sendOk then
      Delivered(false, false, false, rec)
    else
      Delivered(true, !p.muted, true, Some(SentRec(p.state, p.now)))
  }

  /** The records written while `posts` are delivered one after the other. */
  function Recorded(rec: Option<SentRec>, posts: seq<Post>): seq<SentRec>
    decreases |posts|
  {
    if posts == [] then []
    else
      var d := Deliver(rec, posts[0]);
      var rest := Recorded(d.record, posts[1..]);
      if d.recorded then [d.record.value] + rest else rest
  }

  /** The record in force after `posts`. */
  function After(rec: Option<SentRec>, posts: seq<Post>): Option<SentRec>
    decreases |posts|
  {
    if posts == [] then rec else After(Deliver(rec, posts[0]).record, posts[1..])
  }

  /** May `next` be recorded directly after `rec`? */
  ghost predicate Follows(rec: Option<SentRec>, next: SentRec) {
    match next.state
    case Info => false
    case Ok => IsFiring(rec)
    case Firing => IsFiring(rec) ==> next.at - rec.value.at >= REMINDER_EVERY
  }

  /** What was in force when the `i`-th entry of a history was recorded. */
  ghost function Previous(rec: Option<SentRec>, h: seq<SentRec>, i: nat): Option<SentRec>
    requires i < |h|
  {
    if i == 0 then rec else Some(h[i - 1])
  }

  /** A well-formed history, read after `rec`. */
  ghost predicate WellFormed(rec: Option<SentRec>, h: seq<SentRec>) {
    forall i | 0 <= i < |h| :: Follows(Previous(rec, h, i), h[i])
  }

  /** A record the relay can hold: none, firing or ok. */
  ghost predicate Plain(rec: Option<SentRec>) {
    rec.Some? ==> rec.value.state != Info
  }

  lemma WellFormedCons(rec: Option<SentRec>, x: SentRec, rest: seq<SentRec>)
    requires Follows(rec, x) && WellFormed(Some(x), rest)
    ensures WellFormed(rec, [x] + rest)
  {
    var h := [x] + rest;
    forall i | 1 <= i < |h| ensures Follows(Previous(rec, h, i), h[i]) {
      assert Follows(Previous(Some(x), rest, i - 1), rest[i - 1]);
    }
  }

  /**
   Over any sequence of reports the recorded history is well formed: it
   starts with firing, ok only follows firing, two firing records in a row
   are a reminder period apart.
   */
  lemma {:induction false} RecordedIsWellFormed(rec: Option<SentRec>, posts: seq<Post>)
    requires Plain(rec)
    ensures WellFormed(rec, Recorded(rec, posts))
    decreases |posts|
  {
    if posts != [] {
      var d := Deliver(rec, posts[0]);
      RecordedIsWellFormed(d.record, posts[1..]);
      var rest := Recorded(d.record, posts[1..]);
      if d.recorded {
        WellFormedCons(rec, d.record.value, rest);
      }
    }
  }

  /**
   The record in force is the last one recorded, so a failed or suppressed
   report leaves no trace.
   */
  lemma {:induction false} RecordIsLastRecorded(rec: Option<SentRec>, posts: seq<Post>)
    ensures var h := Recorded(rec, posts);
            After(rec, posts) == if h == [] then rec else Some(h[|h| - 1])
    decreases |posts|
  {
    if posts != [] {
      RecordIsLastRecorded(Deliver(rec, posts[0]).record, posts[1..]);
    }
  }

  /** The reports that ask for exactly the records `h`. */
  function Replay(h: seq<SentRec>): seq<Post> {
    seq(|h|, i requires 0 <= i < |h| => Post(h[i].state, h[i].at, false, true))
  }

  /** Nothing else is excluded: every well-formed history is recorded by some run. */
  lemma {:induction false} WellFormedIsRecordable(rec: Option<SentRec>, h: seq<SentRec>)
    requires Plain(rec) && WellFormed(rec, h)
    ensures Recorded(rec, Replay(h)) == h
    decreases |h|
  {
    if h != [] {
      var p := Replay(h);
      assert Follows(Previous(rec, h, 0), h[0]);
      assert p[1..] == Replay(h[1..]);
      forall i | 0 <= i < |h| - 1 ensures Follows(Previous(Some(h[0]), h[1..], i), h[1..][i]) {
        assert Follows(Previous(rec, h, i + 1), h[i + 1]);
      }
      WellFormedIsRecordable(Some(h[0]), h[1..]);
    }
  }

  /** How many messages reach the chat. */
  function Posted(rec: Option<SentRec>, posts: seq<Post>): nat
    decreases |posts|
  {
    if posts == [] then 0
    else
      var d := Deliver(rec, posts[0]);
      (if d.posted then 1 else 0) + Posted(d.record, posts[1..])
  }

  /** Reports under one nondecreasing relay clock. */
  ghost predicate RelayClock(posts: seq<Post>) {
    forall i, j | 0 <= i <= j < |posts| :: posts[i].now <= posts[j].now
  }

  lemma {:induction false} PostedWhileFiring(rec: Option<SentRec>, posts: seq<Post>)
    requires IsFiring(rec) && posts != [] && RelayClock(posts) && rec.value.at <= posts[0].now
    requires forall i | 0 <= i < |posts| :: posts[i].state == Firing
    ensures Posted(rec, posts) * REMINDER_EVERY <= posts[|posts| - 1].now - rec.value.at
    decreases |posts|
  {
    var d, rest := Deliver(rec, posts[0]), posts[1..];
    if rest == [] {
      assert Posted(d.record, rest) == 0;
    } else {
      assert rest[|rest| - 1] == posts[|posts| - 1];
      PostedWhileFiring(d.record, rest);
    }
  }

  /** Events at least a reminder period apart, over a span of `span`. */
  lemma CountFromSpacing(n: nat, span: Duration)
    requires span >= 0 && (n > 0 ==> (n - 1) * REMINDER_EVERY <= span)
    ensures n <= 1 + span / REMINDER_EVERY
  {
    TimesAtMost(n - 1, REMINDER_EVERY, span);
  }

  lemma {:induction false} PostedSpacing(rec: Option<SentRec>, posts: seq<Post>)
    requires posts != [] && RelayClock(posts)
    requires forall i | 0 <= i < |posts| :: posts[i].state == Firing
    ensures Posted(rec, posts) > 0
            ==> (Posted(rec, posts) - 1) * REMINDER_EVERY <= posts[|posts| - 1].now - posts[0].now
    decreases |posts|
  {
    var d, rest := Deliver(rec, posts[0]), posts[1..];
    if rest == [] {
      assert Posted(d.record, rest) == 0;
    } else {
      assert rest[|rest| - 1] == posts[|posts| - 1] && rest[0] == posts[1];
      if d.posted {
        PostedWhileFiring(d.record, rest);
      } else {
        PostedSpacing(d.record, rest);
      }
    }
  }

  /**
   However often a firing alert is reported, repeated or retried, a firing
   episode of length T puts at most 1 + T / REMINDER_EVERY messages into the
   chat.
   */
  lemma {:induction false} EpisodeMessages(rec: Option<SentRec>, posts: seq<Post>)
    requires posts != [] && RelayClock(posts)
    requires forall i | 0 <= i < |posts| :: posts[i].state == Firing
    ensures Posted(rec, posts) <= 1 + (posts[|posts| - 1].now - posts[0].now) / REMINDER_EVERY
  {
    PostedSpacing(rec, posts);
    CountFromSpacing(Posted(rec, posts), posts[|posts| - 1].now - posts[0].now);
  }

  /** A recovery is posted at most once, and only where the relay knew the alert as firing. */
  lemma {:induction false} RecoveryMessages(rec: Option<SentRec>, posts: seq<Post>)
    requires forall i | 0 <= i < |posts| :: posts[i].state == Ok
    requires Plain(rec)
    ensures Posted(rec, posts) <= if IsFiring(rec) then 1 else 0
    decreases |posts|
  {
    if posts != [] {
      RecoveryMessages(Deliver(rec, posts[0]).record, posts[1..]);
    }
  }
}
