/** u_is_muted of src/chan.c keeps its answer in the member's flags and trusts it until the channel
    carries a later stamp than the member does. Against it stands the plain evaluation: neither
    op nor voice, and either on the quiet list or in a moderated channel. */
module MuteCache {
  import opened Cookies

  type User = string

  /** matches_ban: whether a mask hits a user. Host names and what the extended bans look at do not
      change while the model runs. */
  type Hits = (string, User) -> bool

  class Chan {
    const id: nat
    var moderated: bool
    var quiet: seq<string>
    var ckFlags: Cookie

    constructor (id: nat)
      ensures this.id == id && !moderated && quiet == [] && ckFlags == ZERO
    {
      this.id, moderated, quiet, ckFlags := id, false, [], ZERO;
    }
  }

  class ChanUser {
    const id: nat
    const c: Chan
    const u: User
    var op: bool
    var voice: bool
    var muted: bool
    var ckFlags: Cookie

    constructor (id: nat, c: Chan, u: User, op: bool, voice: bool)
      ensures this.id == id && this.c == c && this.u == u && this.op == op && this.voice == voice
      ensures !muted && ckFlags == ZERO
    {
      this.id, this.c, this.u, this.op, this.voice, muted, ckFlags := id, c, u, op, voice, false, ZERO;
    }
  }

  predicate Listed(hits: Hits, u: User, list: seq<string>) {
    exists i :: 0 <= i < |list| && hits(list[i], u)
  }

  /** is_in_list */
  method IsInList(hits: Hits, u: User, list: seq<string>) returns (found: bool)
    ensures found == Listed(hits, u, list)
  {
    for i := 0 to |list|
      invariant forall j :: 0 <= j < i ==> !hits(list[j], u)
    {
      if hits(list[i], u) {
        return true;
      }
    }
    return false;
  }

  predicate Evaluate(op: bool, voice: bool, listed: bool, moderated: bool) {
    !op && !voice && (listed || moderated)
  }

  /** The answer without any cache. */
  predicate Fresh(hits: Hits, cu: ChanUser)
    reads cu, cu.c
  {
    Evaluate(cu.op, cu.voice, Listed(hits, cu.u, cu.c.quiet), cu.c.moderated)
  }

  /** A member is never stamped later than its channel, and under an equal stamp the cached answer
      is the fresh one. */
  predicate Cached(hits: Hits, cu: ChanUser)
    reads cu, cu.c
  {
    UpTo(cu.ckFlags, cu.c.ckFlags) && (cu.ckFlags == cu.c.ckFlags ==> cu.muted == Fresh(hits, cu))
  }

  /** The comparison with the channel's stamp comes out right. */
  predicate Comparable(cu: ChanUser)
    reads cu, cu.c
  {
    cu.ckFlags == cu.c.ckFlags || 0 < Gap(cu.ckFlags, cu.c.ckFlags) % 0x1_0000_0000 <= HALF
  }

  /** u_is_muted. The answer is right when the two stamps can be compared, whatever was cached: muted is
      who is neither op nor voice in a channel that is moderated or has a quiet that hits him. When they
      cannot be compared, it is the stale answer, and right only if that happens to be. */
  method IsMuted(hits: Hits, cu: ChanUser) returns (muted: bool)
    requires Cached(hits, cu)
    modifies cu`muted, cu`ckFlags
    ensures Cached(hits, cu) && UpTo(old(cu.ckFlags), cu.ckFlags)
    ensures old(Comparable(cu)) ==>
      (muted <==> !cu.op && !cu.voice &&
                  (cu.c.moderated || exists i :: 0 <= i < |cu.c.quiet| && hits(cu.c.quiet[i], cu.u)))
    ensures muted == if old(Comparable(cu)) then Fresh(hits, cu) else old(cu.muted)
    ensures muted == Fresh(hits, cu) <==> old(Comparable(cu)) || old(cu.muted) == Fresh(hits, cu)
  {
    hide Cmp;
    if cu.ckFlags == cu.c.ckFlags {
      CmpSelf(cu.ckFlags);
    } else {
      CmpExact(cu.ckFlags, cu.c.ckFlags);
    }
    if Cmp(cu.ckFlags, cu.c.ckFlags) >= 0 {
      return cu.muted;
    }
    cu.ckFlags := cu.c.ckFlags;
    cu.muted := false;
    if cu.op || cu.voice {
      return false;
    }
    var quieted := IsInList(hits, cu.u, cu.c.quiet);
    if !quieted && !cu.c.moderated {
      return false;
    }
    cu.muted := true;
    return true;
  }

  /** Why the bound is needed: past 2^31 seconds (in the year 2038) a member who joins a channel
      whose modes have just changed carries a stamp that does not compare, and a quiet does not
      reach him. */
  method Year2038() returns (answer: bool, cu: ChanUser)
    ensures !answer && Fresh((_, _) => true, cu)
  {
    var c := new Chan(0);
    c.moderated := true;
    c.ckFlags := Inc(c.ckFlags, HALF + 1);
    cu := new ChanUser(0, c, "0MCAAAAAA", false, false);
    CmpExact(cu.ckFlags, c.ckFlags);
    answer := IsMuted((_, _) => true, cu);
  }

  /* ---------- runs ---------- */

  datatype PlainChan = PlainChan(moderated: bool, quiet: seq<string>)
  datatype PlainMember = PlainMember(ch: nat, u: User, op: bool, voice: bool)

  /** What there is to know without stamps and caches. */
  datatype Plain = Plain(chans: seq<PlainChan>, members: seq<PlainMember>)

  datatype Status = Status(op: bool, voice: bool)

  /** Mode is a whole u_mode_process on a channel, ended by cmode_sync: any new flags, any new quiet
      list, any new status for each member. */
  datatype Event =
    | Create
    | Join(ch: nat, u: User, op: bool, voice: bool)
    | Mode(ch: nat, moderated: bool, quiet: seq<string>, status: nat -> Status)
    | Tick(seconds: nat)
    | Ask(m: nat)

  predicate Possible(p: Plain, e: Event) {
    match e
    case Join(ch, _, _, _) => ch < |p.chans|
    case Mode(ch, _, _, _) => ch < |p.chans|
    case Ask(m) => m < |p.members|
    case _ => true
  }

  function Promoted(members: seq<PlainMember>, ch: nat, status: nat -> Status): (r: seq<PlainMember>)
    ensures |r| == |members|
  {
    seq(|members|, i requires 0 <= i < |members| =>
      if members[i].ch == ch then members[i].(op := status(i).op, voice := status(i).voice) else members[i])
  }

  function Next(p: Plain, e: Event): Plain {
    match e
    case Create => p.(chans := p.chans + [PlainChan(false, [])])
    case Join(ch, u, op, voice) => p.(members := p.members + [PlainMember(ch, u, op, voice)])
    case Mode(ch, moderated, quiet, status) =>
      if ch < |p.chans| then Plain(p.chans[ch := PlainChan(moderated, quiet)], Promoted(p.members, ch, status)) else p
    case _ => p
  }

  predicate Sound(p: Plain) {
    forall i :: 0 <= i < |p.members| ==> p.members[i].ch < |p.chans|
  }

  function Told(hits: Hits, p: Plain, e: Event): seq<bool>
    requires Sound(p) && Possible(p, e)
  {
    if e.Ask? then
      var m := p.members[e.m];
      [Evaluate(m.op, m.voice, Listed(hits, m.u, p.chans[m.ch].quiet), p.chans[m.ch].moderated)]
    else []
  }

  /** The status bits that a mode string sets and clears on the members of its channel. */
  method SetStatus(members: seq<ChanUser>, c: Chan, status: nat -> Status)
    requires forall i :: 0 <= i < |members| ==> members[i].id == i
    modifies members`op, members`voice
    ensures forall i :: 0 <= i < |members| ==>
      Status(members[i].op, members[i].voice) ==
      if members[i].c == c then status(i) else Status(old(members[i].op), old(members[i].voice))
  {
    for i := 0 to |members|
      invariant forall j :: 0 <= j < |members| ==>
        Status(members[j].op, members[j].voice) ==
        if j < i && members[j].c == c then status(j) else Status(old(members[j].op), old(members[j].voice))
    {
      if members[i].c == c {
        members[i].op, members[i].voice := status(i).op, status(i).voice;
      }
    }
  }

  class Server {
    const hits: Hits
    var now: Word
    var chans: seq<Chan>
    var members: seq<ChanUser>
    /** How many mode changes there have been. */
    ghost var changes: nat

    ghost predicate Valid()
      reads this, chans, members
    {
      (forall i :: 0 <= i < |chans| ==> chans[i].id == i && Timely(chans[i])) &&
      forall i :: 0 <= i < |members| ==>
        members[i].id == i && members[i].c.id < |chans| && chans[members[i].c.id] == members[i].c &&
        Cached(hits, members[i])
    }

    /** A channel is stamped in the past or present; unstamped it has neither quiets nor +m. */
    ghost predicate Timely(c: Chan)
      reads `now, `changes, c
    {
      c.ckFlags.high <= now && c.ckFlags.low <= changes && (c.ckFlags == ZERO ==> !c.moderated && c.quiet == [])
    }

    /** The server is in this plain state. */
    ghost predicate Shows(p: Plain)
      reads `chans, `members, chans`moderated, chans`quiet, members`op, members`voice
    {
      |p.chans| == |chans| && |p.members| == |members| &&
      (forall i :: 0 <= i < |chans| ==> p.chans[i] == PlainChan(chans[i].moderated, chans[i].quiet)) &&
      forall i :: 0 <= i < |members| ==>
        p.members[i] == PlainMember(members[i].c.id, members[i].u, members[i].op, members[i].voice)
    }

    constructor (hits: Hits, now: Word)
      ensures Valid() && Shows(Plain([], [])) && this.hits == hits && this.now == now && changes == 0
    {
      this.hits, this.now, chans, members, changes := hits, now, [], [], 0;
    }

    method Create(ghost p: Plain)
      requires Valid() && Shows(p)
      modifies this
      ensures Valid() && Shows(Next(p, Event.Create)) && now == old(now) && changes == old(changes)
      ensures members == old(members) && forall i :: 0 <= i < |chans| ==> chans[i] in old(chans) || fresh(chans[i])
    {
      var c := new Chan(|chans|);
      chans := chans + [c];
    }

    /** u_chan_user_add, and the status that join and SJOIN then set without a sync. */
    method Join(ghost p: Plain, ch: nat, u: User, op: bool, voice: bool)
      requires Valid() && Shows(p) && ch < |chans|
      modifies this
      ensures Valid() && Shows(Next(p, Event.Join(ch, u, op, voice))) && now == old(now) && changes == old(changes)
      ensures chans == old(chans) && forall i :: 0 <= i < |members| ==> members[i] in old(members) || fresh(members[i])
    {
      var cu := new ChanUser(|members|, chans[ch], u, op, voice);
      members := members + [cu];
    }

    /** Between the changes of a mode string and the sync: the members of that channel may hold any
        answer, but none is stamped later than the channel. */
    ghost predicate Unsynced(ch: nat)
      reads this, chans, members
    {
      (forall i :: 0 <= i < |chans| ==> chans[i].id == i && (i != ch ==> Timely(chans[i]))) &&
      (ch < |chans| ==> chans[ch].ckFlags.high <= now && chans[ch].ckFlags.low <= changes) &&
      forall i :: 0 <= i < |members| ==>
        members[i].id == i && members[i].c.id < |chans| && chans[members[i].c.id] == members[i].c &&
        if members[i].c.id == ch then UpTo(members[i].ckFlags, members[i].c.ckFlags) else Cached(hits, members[i])
    }

    /** The changes of a mode string. */
    method Apply(ghost p: Plain, ch: nat, moderated: bool, quiet: seq<string>, status: nat -> Status)
      requires Valid() && Shows(p) && ch < |chans|
      modifies {chans[ch]}`moderated, {chans[ch]}`quiet, members`op, members`voice
      ensures Shows(Next(p, Event.Mode(ch, moderated, quiet, status)))
      ensures forall i :: 0 <= i < |members| && members[i].c.id != ch ==>
        members[i].op == old(members[i].op) && members[i].voice == old(members[i].voice)
    {
      hide Cached, Timely;
      var c := chans[ch];
      c.moderated, c.quiet := moderated, quiet;
      SetStatus(members, c, status);
    }

    /** What the changes leave of the invariant. */
    method ApplyLoosely(ghost p: Plain, ch: nat, moderated: bool, quiet: seq<string>, status: nat -> Status)
      requires Valid() && Shows(p) && ch < |chans|
      modifies {chans[ch]}`moderated, {chans[ch]}`quiet, members`op, members`voice
      ensures Unsynced(ch) && Shows(Next(p, Event.Mode(ch, moderated, quiet, status)))
    {
      hide Shows, Next, Before, Listed;
      Apply(p, ch, moderated, quiet, status);
      forall i | 0 <= i < |members|
        ensures if members[i].c.id == ch then UpTo(members[i].ckFlags, members[i].c.ckFlags) else Cached(hits, members[i])
      {
        assert old(Cached(hits, members[i]));
      }
      hide Cached, UpTo;
    }

    /** cmode_sync */
    method Sync(ch: nat)
      requires Unsynced(ch) && ch < |chans| && changes < WORD - 1
      modifies this`changes, {chans[ch]}`ckFlags
      ensures Valid() && changes == old(changes) + 1
    {
      hide Inc, Before, Listed;
      var c := chans[ch];
      IncLater(c.ckFlags, now);
      c.ckFlags := Inc(c.ckFlags, now);
      changes := changes + 1;
      forall i | 0 <= i < |members|
        ensures Cached(hits, members[i])
      {
        var m := members[i];
        if m.c.id == ch {
          BeforeTransitive(m.ckFlags, old(c.ckFlags), c.ckFlags);
          NotBeforeItself(c.ckFlags);
        }
      }
      NotBeforeZero(old(c.ckFlags));
      hide Cached, UpTo, Fresh;
    }

    /** A completed u_mode_process with its cmode_sync. */
    method Mode(ghost p: Plain, ch: nat, moderated: bool, quiet: seq<string>, status: nat -> Status)
      requires Valid() && Shows(p) && ch < |chans| && changes < WORD - 1
      modifies this`changes, chans[ch], members`op, members`voice
      ensures Valid() && Shows(Next(p, Event.Mode(ch, moderated, quiet, status)))
      ensures changes == old(changes) + 1
    {
      hide Valid, Shows, Next, Unsynced;
      ApplyLoosely(p, ch, moderated, quiet, status);
      Sync(ch);
    }

    lemma NotBeforeZero(ck: Cookie)
      ensures !Before(ck, ZERO)
    {
    }

    lemma NotBeforeItself(ck: Cookie)
      ensures !Before(ck, ck)
    {
    }

    method Tick(ghost p: Plain, seconds: nat)
      requires Valid() && Shows(p) && now + seconds < WORD
      modifies this`now
      ensures Valid() && Shows(Next(p, Event.Tick(seconds))) && now == old(now) + seconds
    {
      now := now + seconds;
    }

    method Ask(ghost p: Plain, m: nat) returns (muted: bool)
      requires Valid() && Shows(p) && m < |members| && now < HALF && changes < HALF
      modifies members`muted, members`ckFlags
      ensures Valid() && Shows(p) && Sound(p) && [muted] == Told(hits, p, Event.Ask(m))
    {
      assert Cached(hits, members[m]) && Timely(chans[members[m].c.id]);
      muted := IsMuted(hits, members[m]);
    }

    /** One event. */
    method Step(ghost p: Plain, e: Event) returns (told: seq<bool>)
      requires Valid() && Shows(p) && Possible(p, e)
      requires now + Seconds(e) < HALF && changes + 1 < HALF
      modifies this, chans, members
      ensures Valid() && Shows(Next(p, e)) && Sound(p) && told == Told(hits, p, e)
      ensures now == old(now) + Seconds(e) && changes <= old(changes) + 1
      ensures forall i :: 0 <= i < |chans| ==> chans[i] in old(chans) || fresh(chans[i])
      ensures forall i :: 0 <= i < |members| ==> members[i] in old(members) || fresh(members[i])
    {
      ItIsSound(p);
      assert |p.chans| == |chans| && |p.members| == |members| by { SameSize(p); }
      hide Valid, Shows, Sound, Listed;
      told := [];
      match e
      case Create => Create(p);
      case Join(ch, u, op, voice) => Join(p, ch, u, op, voice);
      case Mode(ch, moderated, quiet, status) => Mode(p, ch, moderated, quiet, status);
      case Tick(seconds) => Tick(p, seconds);
      case Ask(m) =>
        var muted := Ask(p, m);
        told := [muted];
    }

    lemma SameSize(p: Plain)
      requires Shows(p)
      ensures |p.chans| == |chans| && |p.members| == |members|
    {
    }

    lemma ItIsSound(p: Plain)
      requires Valid() && Shows(p)
      ensures Sound(p)
    {
    }

    /** Every query of a run is answered as if there were no cache, as long as the clock stays below
        2^31 and there are fewer than 2^31 events. */
    method Run(ghost p: Plain, events: seq<Event>) returns (answers: seq<bool>)
      requires Valid() && Shows(p) && AllPossible(p, events)
      requires now + AllSeconds(events) < HALF && changes + |events| < HALF
      modifies this, chans, members
      ensures Valid() && Sound(p) && answers == Answers(hits, p, events)
      decreases |events|
    {
      ItIsSound(p);
      hide Valid, Shows, Sound, Told, Next, Possible;
      if events == [] {
        return [];
      }
      var told := Step(p, events[0]);
      var rest := Run(Next(p, events[0]), events[1..]);
      answers := told + rest;
    }
  }

  function Seconds(e: Event): nat {
    if e.Tick? then e.seconds else 0
  }

  function AllSeconds(events: seq<Event>): nat {
    if events == [] then 0 else Seconds(events[0]) + AllSeconds(events[1..])
  }

  ghost predicate AllPossible(p: Plain, events: seq<Event>)
    decreases |events|
  {
    events == [] || (Possible(p, events[0]) && AllPossible(Next(p, events[0]), events[1..]))
  }

  lemma NextSound(p: Plain, e: Event)
    requires Sound(p) && Possible(p, e)
    ensures Sound(Next(p, e))
  {
  }

  /** The answers of a run, evaluated afresh each time. */
  ghost function Answers(hits: Hits, p: Plain, events: seq<Event>): seq<bool>
    requires Sound(p) && AllPossible(p, events)
    decreases |events|
  {
    if events == [] then []
    else
      NextSound(p, events[0]);
      Told(hits, p, events[0]) + Answers(hits, Next(p, events[0]), events[1..])
  }
}
