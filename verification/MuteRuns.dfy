/** The answers of the runs of MuteCache.dfy, said by the events alone: who asks is judged by the last
    mode change of the channel, or by the join when nothing has changed his status since. */
module MuteRuns {
  import opened MuteCache

  const START := Plain([], [])

  /* ---------- counting ---------- */

  /** How many members have joined, and how many questions were asked, before event k. */
  function Joined(events: seq<Event>, k: nat): nat
    requires k <= |events|
  {
    if k == 0 then 0 else Joined(events, k - 1) + if events[k - 1].Join? then 1 else 0
  }

  function Asked(events: seq<Event>, k: nat): nat
    requires k <= |events|
  {
    if k == 0 then 0 else Asked(events, k - 1) + if events[k - 1].Ask? then 1 else 0
  }

  ghost function After(p: Plain, events: seq<Event>, k: nat): Plain
    requires k <= |events|
  {
    if k == 0 then p else Next(After(p, events, k - 1), events[k - 1])
  }

  lemma {:induction false} AskedTail(events: seq<Event>, k: nat)
    requires 0 < k <= |events|
    ensures Asked(events, k) == Asked(events[1..], k - 1) + if events[0].Ask? then 1 else 0
  {
    if k > 1 {
      AskedTail(events, k - 1);
    }
  }

  lemma {:induction false} AfterTail(p: Plain, events: seq<Event>, k: nat)
    requires 0 < k <= |events|
    ensures After(p, events, k) == After(Next(p, events[0]), events[1..], k - 1)
  {
    hide Next;
    if k > 1 {
      AfterTail(p, events, k - 1);
    }
  }

  lemma {:induction false} AfterSound(p: Plain, events: seq<Event>, k: nat)
    requires Sound(p) && AllPossible(p, events) && k <= |events|
    ensures Sound(After(p, events, k)) && (k < |events| ==> Possible(After(p, events, k), events[k]))
    decreases k
  {
    hide Next, Sound, Possible;
    if k > 0 {
      NextSound(p, events[0]);
      AfterTail(p, events, k);
      AfterSound(Next(p, events[0]), events[1..], k - 1);
    }
  }

  /** The answer to the question at event k. */
  lemma {:induction false} AnswerAt(hits: Hits, p: Plain, events: seq<Event>, k: nat)
    requires Sound(p) && AllPossible(p, events) && k < |events| && events[k].Ask?
    ensures Sound(After(p, events, k)) && Possible(After(p, events, k), events[k])
    ensures Asked(events, k) < |Answers(hits, p, events)|
    ensures [Answers(hits, p, events)[Asked(events, k)]] == Told(hits, After(p, events, k), events[k])
    decreases k
  {
    hide Next, Sound, Possible;
    AfterSound(p, events, k);
    NextSound(p, events[0]);
    if k > 0 {
      AskedTail(events, k);
      AfterTail(p, events, k);
      AnswerAt(hits, Next(p, events[0]), events[1..], k - 1);
      assert |Told(hits, p, events[0])| == if events[0].Ask? then 1 else 0;
      hide Told;
    }
  }

  /* ---------- what the events leave ---------- */

  predicate ModeOn(e: Event, ch: nat) {
    e.Mode? && e.ch == ch
  }

  /** Event a is the last mode change of the channel before event k. */
  predicate LastMode(events: seq<Event>, a: nat, k: nat, ch: nat)
    requires k <= |events|
  {
    a < k && ModeOn(events[a], ch) && forall b :: a < b < k ==> !ModeOn(events[b], ch)
  }

  predicate NoMode(events: seq<Event>, k: nat, ch: nat)
    requires k <= |events|
  {
    forall b :: 0 <= b < k ==> !ModeOn(events[b], ch)
  }

  /** Event i is the one by which member m joined. */
  predicate JoinedBy(events: seq<Event>, i: nat, m: nat)
    requires i < |events|
  {
    events[i].Join? && Joined(events, i) == m
  }

  lemma {:induction false} Counted(events: seq<Event>, k: nat)
    requires AllPossible(START, events) && k <= |events|
    ensures |After(START, events, k).members| == Joined(events, k)
  {
    if k > 0 {
      Counted(events, k - 1);
      AfterSound(START, events, k - 1);
    }
  }

  /** From event a to event k without a mode change: the channel and its members stay. */
  lemma {:induction false} Stays(events: seq<Event>, a: nat, k: nat, ch: nat, m: nat)
    requires AllPossible(START, events) && a <= k <= |events| && forall b :: a <= b < k ==> !ModeOn(events[b], ch)
    ensures var p, q := After(START, events, a), After(START, events, k);
            (ch < |p.chans| ==> ch < |q.chans| && q.chans[ch] == p.chans[ch]) &&
            (m < |p.members| && p.members[m].ch == ch ==> m < |q.members| && q.members[m] == p.members[m])
    decreases k - a
  {
    if a < k {
      assert !ModeOn(events[k - 1], ch);
      Stays(events, a, k - 1, ch, m);
      AfterSound(START, events, k - 1);
    }
  }

  /** Members stay on their channels. */
  lemma {:induction false} KeepsPlace(events: seq<Event>, a: nat, k: nat, m: nat)
    requires AllPossible(START, events) && a <= k <= |events|
    ensures var p, q := After(START, events, a), After(START, events, k);
            m < |p.members| ==> m < |q.members| && q.members[m].ch == p.members[m].ch && q.members[m].u == p.members[m].u
    decreases k - a
  {
    if a < k {
      KeepsPlace(events, a, k - 1, m);
      AfterSound(START, events, k - 1);
    }
  }

  lemma {:induction false} Unmoded(events: seq<Event>, k: nat, ch: nat)
    requires AllPossible(START, events) && k <= |events| && NoMode(events, k, ch)
    ensures var p := After(START, events, k); ch < |p.chans| ==> p.chans[ch] == PlainChan(false, [])
  {
    if k > 0 {
      assert !ModeOn(events[k - 1], ch);
      Unmoded(events, k - 1, ch);
      AfterSound(START, events, k - 1);
    }
  }

  lemma JustJoined(events: seq<Event>, i: nat, m: nat)
    requires AllPossible(START, events) && i < |events| && JoinedBy(events, i, m)
    ensures var q, e := After(START, events, i + 1), events[i];
            m < |q.members| && q.members[m] == PlainMember(e.ch, e.u, e.op, e.voice) && e.ch < |q.chans|
  {
    Counted(events, i);
    AfterSound(START, events, i);
  }

  lemma JustMode(events: seq<Event>, a: nat, ch: nat, m: nat)
    requires AllPossible(START, events) && a < |events| && ModeOn(events[a], ch)
    ensures var p, q, e := After(START, events, a), After(START, events, a + 1), events[a];
            ch < |q.chans| && q.chans[ch] == PlainChan(e.moderated, e.quiet) &&
            (m < |p.members| && p.members[m].ch == ch ==>
               m < |q.members| && q.members[m] == PlainMember(ch, p.members[m].u, e.status(m).op, e.status(m).voice))
  {
    AfterSound(START, events, a);
  }

  /* ---------- the answers ---------- */

  lemma AskedOf(hits: Hits, events: seq<Event>, k: nat, m: nat)
    requires AllPossible(START, events) && k < |events| && events[k] == Ask(m)
    ensures Sound(START) && Asked(events, k) < |Answers(hits, START, events)|
    ensures var p := After(START, events, k);
            m < |p.members| && p.members[m].ch < |p.chans| &&
            var x := p.members[m]; var c := p.chans[x.ch];
            Answers(hits, START, events)[Asked(events, k)] <==>
            !x.op && !x.voice && (c.moderated || exists i :: 0 <= i < |c.quiet| && hits(c.quiet[i], x.u))
  {
    AnswerAt(hits, START, events, k);
  }

  /** A member asked about after a mode change of his channel since he joined: the last one decides
      whether he is op or voice, whether the channel is moderated, and what it quiets. */
  lemma ModeDecides(hits: Hits, events: seq<Event>, i: nat, a: nat, k: nat, m: nat)
    requires AllPossible(START, events) && i < a < k < |events| && events[k] == Ask(m) && JoinedBy(events, i, m)
    requires LastMode(events, a, k, events[i].ch)
    ensures Sound(START) && Asked(events, k) < |Answers(hits, START, events)|
    ensures Answers(hits, START, events)[Asked(events, k)] <==>
            !events[a].status(m).op && !events[a].status(m).voice &&
            (events[a].moderated ||
             exists j :: 0 <= j < |events[a].quiet| && hits(events[a].quiet[j], events[i].u))
  {
    var ch := events[i].ch;
    hide After;
    JustJoined(events, i, m);
    KeepsPlace(events, i + 1, a, m);
    JustMode(events, a, ch, m);
    Stays(events, a + 1, k, ch, m);
    AskedOf(hits, events, k, m);
  }

  /** Asked about when the last mode change of the channel was before he joined: the join decides what
      he is, that mode change the rest. */
  lemma JoinDecides(hits: Hits, events: seq<Event>, i: nat, a: nat, k: nat, m: nat)
    requires AllPossible(START, events) && a < i < k < |events| && events[k] == Ask(m) && JoinedBy(events, i, m)
    requires LastMode(events, a, k, events[i].ch)
    ensures Sound(START) && Asked(events, k) < |Answers(hits, START, events)|
    ensures Answers(hits, START, events)[Asked(events, k)] <==>
            !events[i].op && !events[i].voice &&
            (events[a].moderated ||
             exists j :: 0 <= j < |events[a].quiet| && hits(events[a].quiet[j], events[i].u))
  {
    var ch := events[i].ch;
    hide After;
    JustMode(events, a, ch, m);
    Stays(events, a + 1, i + 1, ch, m);
    JustJoined(events, i, m);
    Stays(events, i + 1, k, ch, m);
    AskedOf(hits, events, k, m);
  }

  /** Nobody is muted in a channel whose modes were never changed. */
  lemma NeverMuted(hits: Hits, events: seq<Event>, i: nat, k: nat, m: nat)
    requires AllPossible(START, events) && i < k < |events| && events[k] == Ask(m) && JoinedBy(events, i, m)
    requires NoMode(events, k, events[i].ch)
    ensures Sound(START) && Asked(events, k) < |Answers(hits, START, events)|
    ensures !Answers(hits, START, events)[Asked(events, k)]
  {
    var ch := events[i].ch;
    hide After;
    JustJoined(events, i, m);
    Stays(events, i + 1, k, ch, m);
    Unmoded(events, k, ch);
    AskedOf(hits, events, k, m);
  }

  lemma {:induction false} JoinOf(events: seq<Event>, k: nat, m: nat) returns (i: nat)
    requires k <= |events| && m < Joined(events, k)
    ensures i < k && JoinedBy(events, i, m)
  {
    if events[k - 1].Join? && Joined(events, k - 1) == m {
      i := k - 1;
    } else {
      i := JoinOf(events, k - 1, m);
    }
  }

  /** Whoever is asked about has joined before, so one of the three cases is there. */
  lemma WhoAsked(events: seq<Event>, k: nat, m: nat)
    requires AllPossible(START, events) && k < |events| && events[k] == Ask(m)
    ensures exists i :: 0 <= i < k && JoinedBy(events, i, m)
  {
    AfterSound(START, events, k);
    Counted(events, k);
    var i := JoinOf(events, k, m);
  }
}
