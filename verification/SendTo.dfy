/** src/sendto.c: one line to many users goes once to every link that carries one of them. A global
    stamp is advanced for every line, and a link that carries the same stamp has had it. */
module SendTo {
  import opened Cookies

  datatype LinkType = LinkNone | LinkUser | LinkServer
  datatype SendType = StAll | StUsers | StServers

  class Link {
    const kind: LinkType
    var ckSendto: Cookie
    /** The lines put on the link. */
    var out: seq<string>

    constructor (kind: LinkType)
      ensures this.kind == kind && ckSendto == ZERO && out == []
    {
      this.kind, ckSendto, out := kind, ZERO, [];
    }
  }

  /** want_send */
  function Want(t: SendType, kind: LinkType): bool {
    match t
    case StAll => true
    case StUsers => !kind.LinkServer?
    case StServers => kind.LinkServer?
  }

  /** The line in the form for users and in the form for servers. */
  datatype Message = Message(user: string, server: string)

  /** What is sent to all is for every link, what is sent to users for user links and those not yet
      registered, what is sent to servers for server links. */
  ghost predicate For(t: SendType, l: Link) {
    match l.kind
    case LinkServer => t == StAll || t == StServers
    case LinkUser => t == StAll || t == StUsers
    case LinkNone => t == StAll || t == StUsers
  }

  /** A server link gets the form for servers, any other the form for users. */
  ghost function Form(m: Message, l: Link): string {
    match l.kind
    case LinkServer => m.server
    case LinkUser => m.user
    case LinkNone => m.user
  }

  datatype Formatted = Not | Done(text: string)

  /** What u_sendto_skip leaves of an excluded link's stamp. */
  function Skipped(had: Cookie, g: Cookie): Cookie {
    if Cmp(had, g) < 0 then g else had
  }

  /** The stamp makes it look as if the link had the line. */
  predicate Silent(had: Cookie, excluded: bool, g: Cookie) {
    Cmp(if excluded then Skipped(had, g) else had, g) == 0
  }

  ghost function Only(l: Link?): set<Link> {
    if l == null then {} else {l}
  }

  ghost function In(links: seq<Link>): set<Link> {
    set l | l in links
  }

  /** The static variables. */
  class Sender {
    var ckSendto: Cookie
    var lnUser: Formatted
    var lnServ: Formatted

    /** init_sendto */
    constructor ()
      ensures ckSendto == ZERO
    {
      ckSendto, lnUser, lnServ := ZERO, Not, Not;
    }

    /** The cached lines are of this message. */
    ghost predicate Lines(m: Message)
      reads this
    {
      lnUser in {Not, Done(m.user)} && lnServ in {Not, Done(m.server)}
    }

    /** u_sendto_start */
    method Start(now: Word, ghost m: Message)
      modifies this
      ensures ckSendto == Inc(old(ckSendto), now) && Lines(m)
    {
      ckSendto := Inc(ckSendto, now);
      lnUser, lnServ := Not, Not;
    }

    /** u_sendto_skip */
    method Skip(link: Link?)
      modifies Only(link)`ckSendto
      ensures link != null ==> link.ckSendto == Skipped(old(link.ckSendto), ckSendto)
    {
      if link == null {
        return;
      }
      if Cmp(link.ckSendto, ckSendto) < 0 {
        link.ckSendto := ckSendto;
      }
    }

    /** ln: the line is formatted once for users and once for servers. */
    method Ln(link: Link, m: Message) returns (line: string)
      requires Lines(m)
      modifies this`lnUser, this`lnServ
      ensures Lines(m) && line == Form(m, link)
    {
      if link.kind.LinkServer? {
        if lnServ.Not? {
          lnServ := Done(m.server);
        }
        return lnServ.text;
      }
      if lnUser.Not? {
        lnUser := Done(m.user);
      }
      return lnUser.text;
    }

    /** u_sendto */
    method Send(link: Link, line: string)
      modifies link
      ensures if Cmp(old(link.ckSendto), ckSendto) == 0 then unchanged(link)
              else link.ckSendto == ckSendto && link.out == old(link.out) + [line]
    {
      if Cmp(link.ckSendto, ckSendto) == 0 {
        return;
      }
      link.ckSendto := ckSendto;
      link.out := link.out + [line];
    }

    /** What a walk does to a link it meets, however often: the wanted ones that do not look served
        get the line, once. */
    twostate predicate Served(m: Message, t: SendType, l: Link)
      reads this, l
    {
      if For(t, l) && Cmp(old(l.ckSendto), ckSendto) != 0
      then l.ckSendto == ckSendto && l.out == old(l.out) + [Form(m, l)]
      else l.ckSendto == old(l.ckSendto) && l.out == old(l.out)
    }

    /** A walk over the links of the members of a channel. */
    method Walk(members: seq<Link>, t: SendType, m: Message)
      requires Lines(m)
      modifies this`lnUser, this`lnServ, In(members)
      ensures Lines(m) && forall l :: l in members ==> Served(m, t, l)
    {
      hide Cmp;
      CmpSelf(ckSendto);
      ghost var seen: set<Link> := {};
      for i := 0 to |members|
        invariant Lines(m) && forall j :: 0 <= j < i ==> members[j] in seen
        invariant forall l :: l in seen ==> l in members && Served(m, t, l)
        invariant forall l :: l in members && l !in seen ==> unchanged(l)
      {
        var link := members[i];
        if Want(t, link.kind) && Cmp(link.ckSendto, ckSendto) != 0 {
          var line := Ln(link, m);
          Send(link, line);
        }
        seen := seen + {link};
      }
    }

    /** A walk over channel after channel serves a link as one walk would. */
    method WalkAll(chans: seq<seq<Link>>, t: SendType, m: Message)
      requires Lines(m)
      modifies this`lnUser, this`lnServ, AllIn(chans)
      ensures Lines(m) && forall l :: l in AllIn(chans) ==> Served(m, t, l)
    {
      ghost var all := AllIn(chans);
      assert forall l :: l in all ==> allocated(l);
      hide Cmp, AllIn;
      CmpSelf(ckSendto);
      ghost var seen: set<Link> := {};
      for i := 0 to |chans|
        invariant Lines(m) && seen <= all == AllIn(chans) && forall j :: 0 <= j < i ==> In(chans[j]) <= seen
        invariant forall l :: l in seen ==> Served(m, t, l)
        invariant forall l :: l in all && l !in seen ==> unchanged(l)
      {
        Inside(chans, i);
        Walk(chans[i], t, m);
        seen := seen + In(chans[i]);
      }
      Covered(chans, seen);
    }

    /** A link's stamp once the excluded link is marked. */
    twostate function Marked(l: Link, exclude: Link?): Cookie
      reads this
    {
      if l == exclude then Skipped(old(l.ckSendto), ckSendto) else old(l.ckSendto)
    }

    /** What a whole broadcast does to a link. */
    twostate predicate Got(m: Message, t: SendType, exclude: Link?, l: Link)
      reads this, l
    {
      if For(t, l) && Cmp(Marked(l, exclude), ckSendto) != 0
      then l.ckSendto == ckSendto && l.out == old(l.out) + [Form(m, l)]
      else l.ckSendto == Marked(l, exclude) && l.out == old(l.out)
    }

    twostate predicate OnlyMarked(exclude: Link?, l: Link)
      reads this, l
    {
      l.ckSendto == Marked(l, exclude) && l.out == old(l.out)
    }

    /** u_sendto_chan; the same for u_sendto_servers, u_sendto_list and u_sendto_map, which want
        all the links they walk over. Whatever stamps there are, a member's link gets the line at
        most once, and gets it exactly when it is wanted and does not look served. */
    method SendChan(members: seq<Link>, exclude: Link?, t: SendType, now: Word, m: Message)
      modifies this, In(members), Only(exclude)`ckSendto
      ensures ckSendto == Inc(old(ckSendto), now)
      ensures forall l :: l in members ==> Got(m, t, exclude, l)
      ensures exclude != null && exclude !in members ==> OnlyMarked(exclude, exclude)
    {
      hide Cmp, Skipped, Inc;
      Start(now, m);
      Skip(exclude);
      Walk(members, t, m);
    }

    /** u_sendto_visible: the members of every channel the user is in, one channel after the
        other. */
    method SendVisible(chans: seq<seq<Link>>, exclude: Link?, t: SendType, now: Word, m: Message)
      modifies this, AllIn(chans), Only(exclude)`ckSendto
      ensures ckSendto == Inc(old(ckSendto), now)
      ensures forall l :: l in AllIn(chans) ==> Got(m, t, exclude, l)
      ensures exclude != null && exclude !in AllIn(chans) ==> OnlyMarked(exclude, exclude)
    {
      hide Cmp, Skipped, Inc;
      Start(now, m);
      Skip(exclude);
      WalkAll(chans, t, m);
    }
  }

  ghost function AllIn(chans: seq<seq<Link>>): set<Link> {
    set i, l | 0 <= i < |chans| && l in chans[i] :: l
  }

  lemma Inside(chans: seq<seq<Link>>, i: nat)
    requires i < |chans|
    ensures In(chans[i]) <= AllIn(chans)
  {
  }

  lemma Covered(chans: seq<seq<Link>>, seen: set<Link>)
    requires forall i :: 0 <= i < |chans| ==> In(chans[i]) <= seen
    ensures AllIn(chans) <= seen
  {
    forall i, l | 0 <= i < |chans| && l in chans[i]
      ensures l in seen
    {
      assert l in In(chans[i]);
    }
  }

  /* ---------- exactly once ---------- */

  /** For stamps less than 2^31 apart in any order: a link looks served exactly when its stamp is the
      global one, and, if it is excluded, exactly when its stamp is not later than the global one. */
  lemma SilentExact(had: Cookie, g: Cookie)
    requires Near(had, g)
    ensures Silent(had, false, g) <==> had == g
    ensures Silent(had, true, g) <==> UpTo(had, g)
    ensures Skipped(had, g) == if Before(had, g) then g else had
  {
    hide Cmp;
    CmpNear(had, g);
    CmpSelf(g);
  }

  /** With stamps in order and less than 2^31 apart only the excluded link looks served. */
  lemma ExactlyOnce(had: Cookie, excluded: bool, g: Cookie)
    requires Before(had, g) && Near(had, g)
    ensures Silent(had, excluded, g) == excluded
  {
    hide Silent, Skipped;
    SilentExact(had, g);
  }

  /** The global stamp is not ahead of the clock, and no link's stamp of the present second is later
      than the global one. */
  ghost predicate Ahead(s: Sender, links: set<Link>, now: int)
    reads s, links
  {
    s.ckSendto.high <= now && forall l :: l in links ==> InOrder(l.ckSendto, s.ckSendto, now)
  }

  predicate InOrder(had: Cookie, g: Cookie, now: int) {
    had.high < now || UpTo(had, g)
  }

  datatype Cast =
    | ToChan(members: seq<Link>, exclude: Link?, t: SendType, m: Message)
    | ToVisible(chans: seq<seq<Link>>, exclude: Link?, t: SendType, m: Message)
    | Tick(seconds: nat)

  ghost function Reached(c: Cast): set<Link> {
    if c.ToChan? then In(c.members) else if c.ToVisible? then AllIn(c.chans) else {}
  }

  ghost predicate Within(c: Cast, links: set<Link>) {
    Reached(c) <= links && (!c.Tick? ==> Only(c.exclude) <= links)
  }

  /** A broadcast that has a member on the link and is for links of its kind. */
  ghost predicate Meets(c: Cast, l: Link) {
    !c.Tick? && l in Reached(c) && For(c.t, l)
  }

  /** The lines a link is due: one for each broadcast it meets, unless it is excluded, however many
      members share the link. */
  ghost function Due(c: Cast, l: Link): seq<string> {
    if Meets(c, l) && l != c.exclude then [Form(c.m, l)] else []
  }

  /** By cases: every link of a member that is not the excluded one is due the line, once, except that
      server links are due nothing of what is for users, and the others nothing of what is for
      servers. */
  lemma DueCases(c: Cast, l: Link)
    ensures
      var met := match c
        case ToChan(members, _, _, _) => l in members
        case ToVisible(chans, _, _, _) => exists i :: 0 <= i < |chans| && l in chans[i]
        case Tick(_) => false;
      if !met || l == c.exclude then Due(c, l) == []
      else match l.kind
        case LinkServer => Due(c, l) == if c.t == StUsers then [] else [c.m.server]
        case LinkUser => Due(c, l) == if c.t == StServers then [] else [c.m.user]
        case LinkNone => Due(c, l) == if c.t == StServers then [] else [c.m.user]
  {
  }

  ghost function AllDue(casts: seq<Cast>, l: Link): seq<string> {
    if casts == [] then [] else AllDue(casts[..|casts| - 1], l) + Due(casts[|casts| - 1], l)
  }

  function Seconds(c: Cast): nat {
    if c.Tick? then c.seconds else 0
  }

  function AllSeconds(casts: seq<Cast>): nat {
    if casts == [] then 0 else AllSeconds(casts[..|casts| - 1]) + Seconds(casts[|casts| - 1])
  }

  /** After u_sendto_start the global stamp is strictly above every link's. */
  lemma StartsAbove(had: Cookie, g: Cookie, now: Word)
    requires InOrder(had, g, now) && g.high <= now < HALF && g.low + 1 < HALF
    ensures Before(had, Inc(g, now)) && Near(had, Inc(g, now)) && Inc(g, now).high == now
    ensures Inc(g, now).low <= g.low + 1
    ensures Skipped(had, Inc(g, now)) == Inc(g, now)
  {
    hide Cmp;
    IncLater(g, now);
    if UpTo(had, g) {
      BeforeTransitive(had, g, Inc(g, now));
    }
    CmpNear(had, Inc(g, now));
  }

  /** The stamp and the lines one broadcast with the global stamp g leaves on a link. */
  function StampAfter(c: Cast, l: Link, at: Cookie, g: Cookie, met: bool): Cookie
    requires !c.Tick?
  {
    if met && !Silent(at, l == c.exclude, g) then g else if l == c.exclude then Skipped(at, g) else at
  }

  ghost function LinesAfter(c: Cast, l: Link, at: Cookie, g: Cookie, met: bool): seq<string>
    requires !c.Tick?
  {
    if met && !Silent(at, l == c.exclude, g) then [Form(c.m, l)] else []
  }

  /** One broadcast, whatever the stamps. */
  method Broadcast(s: Sender, ghost links: set<Link>, c: Cast, now: Word)
    requires !c.Tick? && Within(c, links)
    modifies s, links
    ensures s.ckSendto == Inc(old(s.ckSendto), now)
    ensures forall l :: l in links ==> l.ckSendto == StampAfter(c, l, old(l.ckSendto), s.ckSendto, Meets(c, l))
    ensures forall l :: l in links ==>
      l.out == old(l.out) + LinesAfter(c, l, old(l.ckSendto), s.ckSendto, Meets(c, l))
  {
    hide Inc, Cmp, Skipped, AllIn;
    match c
    case ToChan(members, exclude, t, m) =>
      s.SendChan(members, exclude, t, now, m);
    case ToVisible(chans, exclude, t, m) =>
      s.SendVisible(chans, exclude, t, now, m);
  }

  /** One broadcast in order. */
  method Deliver(s: Sender, ghost links: set<Link>, c: Cast, now: Word)
    requires !c.Tick? && Within(c, links) && Ahead(s, links, now) && now < HALF && s.ckSendto.low + 1 < HALF
    modifies s, links
    ensures Ahead(s, links, now) && s.ckSendto.low <= old(s.ckSendto.low) + 1
    ensures forall l :: l in links ==> l.out == old(l.out) + Due(c, l)
  {
    forall l | l in links
      ensures Before(l.ckSendto, Inc(s.ckSendto, now)) && Near(l.ckSendto, Inc(s.ckSendto, now))
      ensures Skipped(l.ckSendto, Inc(s.ckSendto, now)) == Inc(s.ckSendto, now)
      ensures forall x :: x in {true, false} ==> Silent(l.ckSendto, x, Inc(s.ckSendto, now)) == x
    {
      StartsAbove(l.ckSendto, s.ckSendto, now);
      ExactlyOnce(l.ckSendto, true, Inc(s.ckSendto, now));
      ExactlyOnce(l.ckSendto, false, Inc(s.ckSendto, now));
    }
    IncLater(s.ckSendto, now);
    hide Inc, Cmp, Skipped, Before, Within, Meets;
    Broadcast(s, links, c, now);
  }

  /** Over any run of broadcasts and clock ticks every link gets exactly the lines it is due, each
      once, as long as the clock stays below 2^31 and the broadcasts within a second do too. */
  method Run(s: Sender, ghost links: set<Link>, casts: seq<Cast>, start: Word) returns (now: Word)
    requires Ahead(s, links, start) && forall i :: 0 <= i < |casts| ==> Within(casts[i], links)
    requires start + AllSeconds(casts) < HALF && s.ckSendto.low + |casts| < HALF
    modifies s, links
    ensures now == start + AllSeconds(casts) && Ahead(s, links, now)
    ensures forall l :: l in links ==> l.out == old(l.out) + AllDue(casts, l)
  {
    now := start;
    for i := 0 to |casts|
      invariant now == start + AllSeconds(casts[..i]) && AllSeconds(casts[..i]) <= AllSeconds(casts)
      invariant Ahead(s, links, now) && s.ckSendto.low <= old(s.ckSendto.low) + i
      invariant forall l :: l in links ==> l.out == old(l.out) + AllDue(casts[..i], l)
    {
      hide Within, Due, UpTo, AllDue, Ahead, Form, For, Meets;
      OneMore(casts, i);
      if casts[i].Tick? {
        LaterAhead(s, links, now, casts[i].seconds);
        now := now + casts[i].seconds;
      } else {
        Deliver(s, links, casts[i], now);
      }
    }
    assert casts[..|casts|] == casts;
  }

  lemma LaterAhead(s: Sender, links: set<Link>, now: int, seconds: nat)
    requires Ahead(s, links, now)
    ensures Ahead(s, links, now + seconds)
  {
    hide UpTo;
  }

  lemma OneMore(casts: seq<Cast>, i: nat)
    requires i < |casts|
    ensures AllSeconds(casts[..i + 1]) == AllSeconds(casts[..i]) + Seconds(casts[i])
    ensures AllSeconds(casts[..i + 1]) <= AllSeconds(casts)
    ensures forall l :: AllDue(casts[..i + 1], l) == AllDue(casts[..i], l) + Due(casts[i], l)
  {
    assert casts[..i + 1][..i] == casts[..i];
    SecondsGrow(casts, i + 1);
  }

  lemma {:induction false} SecondsGrow(casts: seq<Cast>, i: nat)
    requires i <= |casts|
    ensures AllSeconds(casts[..i]) <= AllSeconds(casts)
  {
    if i == |casts| {
      assert casts[..i] == casts;
    } else {
      assert casts[..|casts| - 1][..i] == casts[..i];
      SecondsGrow(casts[..|casts| - 1], i);
    }
  }

  /* ---------- after an upgrade ---------- */

  /* The links have their stamps back, but the global stamp starts from zero, so in the second of the
     restart it comes by stamps that links may already carry: broadcast k of that second, counted
     from 0, has the stamp (second, k). */

  /** No broadcast before this one walked over the link and wanted it. */
  ghost predicate Unmet(casts: seq<Cast>, k: nat, l: Link)
    requires k <= |casts|
  {
    forall i :: 0 <= i < k ==> !Meets(casts[i], l)
  }

  /** Broadcast k comes by the very stamp with which the link was restored. */
  ghost predicate Lost(casts: seq<Cast>, k: nat, l: Link, had: Cookie, now: Word)
    requires k < |casts|
  {
    Due(casts[k], l) != [] && Unmet(casts, k, l) && had.high == now && had.low == k
  }

  /** Broadcast k excludes the link, but the link was restored with a later stamp. */
  ghost predicate Leaked(casts: seq<Cast>, k: nat, l: Link, had: Cookie, now: Word)
    requires k < |casts|
  {
    Meets(casts[k], l) && l == casts[k].exclude && Unmet(casts, k, l) && had.high == now && had.low > k
  }

  /** What a link restored with the stamp had gets of broadcast k of the second. */
  ghost function Given(casts: seq<Cast>, k: nat, l: Link, had: Cookie, now: Word): seq<string>
    requires k < |casts|
  {
    if Lost(casts, k, l, had, now) then []
    else if Leaked(casts, k, l, had, now) then [Form(casts[k].m, l)]
    else Due(casts[k], l)
  }

  ghost function AllGiven(casts: seq<Cast>, k: nat, l: Link, had: Cookie, now: Word): seq<string>
    requires k <= |casts|
  {
    if k == 0 then [] else AllGiven(casts, k - 1, l, had, now) + Given(casts, k - 1, l, had, now)
  }

  /** A link's stamp before broadcast k: still the restored one, not yet overtaken, or in order. */
  ghost predicate Stamped(casts: seq<Cast>, k: nat, l: Link, had: Cookie, now: Word, at: Cookie)
    requires k <= |casts|
  {
    if Unmet(casts, k, l) && had.high == now && had.low >= k then at == had
    else at.high < now || (at.high == now && at.low < k)
  }

  /** Broadcast k of the second on one link. */
  lemma GivenStep(casts: seq<Cast>, k: nat, l: Link, had: Cookie, now: Word, at: Cookie)
    requires k < |casts| < HALF && now < HALF && !casts[k].Tick?
    requires had.high <= now && had.low < HALF && at.low < HALF && Stamped(casts, k, l, had, now, at)
    ensures Stamped(casts, k + 1, l, had, now, StampAfter(casts[k], l, at, Cookie(now, k), Meets(casts[k], l)))
    ensures StampAfter(casts[k], l, at, Cookie(now, k), Meets(casts[k], l)).low < HALF
    ensures LinesAfter(casts[k], l, at, Cookie(now, k), Meets(casts[k], l)) == Given(casts, k, l, had, now)
  {
    hide Silent, Skipped, Within;
    SilentExact(at, Cookie(now, k));
    assert Unmet(casts, k + 1, l) <==> Unmet(casts, k, l) && !Meets(casts[k], l);
  }

  ghost predicate AllStamped(casts: seq<Cast>, k: nat, links: set<Link>, had: map<Link, Cookie>, now: Word)
    requires k <= |casts|
    reads links
  {
    forall l :: l in links ==> l in had && Stamped(casts, k, l, had[l], now, l.ckSendto) && l.ckSendto.low < HALF
  }

  /** Broadcast k of the second. */
  method DeliverRestored(s: Sender, ghost links: set<Link>, casts: seq<Cast>, k: nat, now: Word,
      ghost had: map<Link, Cookie>)
    requires k < |casts| < HALF && 0 < now < HALF && s.ckSendto == if k == 0 then ZERO else Cookie(now, k - 1)
    requires !casts[k].Tick? && Within(casts[k], links) && AllStamped(casts, k, links, had, now)
    requires forall l :: l in had ==> had[l].high <= now && had[l].low < HALF
    modifies s, links
    ensures s.ckSendto == Cookie(now, k) && AllStamped(casts, k + 1, links, had, now)
    ensures forall l :: l in links ==> l.out == old(l.out) + Given(casts, k, l, had[l], now)
  {
    hide StampAfter, LinesAfter, Stamped, Given, Within, Meets;
    Broadcast(s, links, casts[k], now);
    forall l | l in links
      ensures Stamped(casts, k + 1, l, had[l], now, l.ckSendto) && l.ckSendto.low < HALF
      ensures l.out == old(l.out) + Given(casts, k, l, had[l], now)
    {
      GivenStep(casts, k, l, had[l], now, old(l.ckSendto));
    }
  }

  /** The second of the restart. */
  method FirstSecond(ghost links: set<Link>, first: seq<Cast>, now: Word, ghost had: map<Link, Cookie>)
      returns (s: Sender)
    requires 0 < now < HALF && |first| < HALF
    requires forall l :: l in had ==> had[l].high <= now && had[l].low < HALF
    requires forall l :: l in links ==> l in had && l.ckSendto == had[l]
    requires forall i :: 0 <= i < |first| ==> !first[i].Tick? && Within(first[i], links)
    modifies links
    ensures fresh(s) && s.ckSendto.high <= now && s.ckSendto.low <= |first|
    ensures AllStamped(first, |first|, links, had, now)
    ensures forall l :: l in links ==> l.out == old(l.out) + AllGiven(first, |first|, l, had[l], now)
  {
    s := new Sender();
    for k := 0 to |first|
      invariant s.ckSendto == (if k == 0 then ZERO else Cookie(now, k - 1)) && AllStamped(first, k, links, had, now)
      invariant forall l :: l in links ==> l.out == old(l.out) + AllGiven(first, k, l, had[l], now)
    {
      hide AllStamped, Given, Within, Form, For, Meets;
      DeliverRestored(s, links, first, k, now, had);
    }
  }

  /** A restart in the second now, that second's broadcasts, and any run once the clock has moved on.
      Each broadcast of the first second does to each link exactly what Given says: a line is lost if
      and only if the link still carries the broadcast's own stamp from before the upgrade, and an
      excluded link gets a line if and only if it still carries a later one. From the next second
      on nothing is lost and nothing leaks. */
  method AfterUpgrade(ghost links: set<Link>, first: seq<Cast>, now: Word, pause: nat, rest: seq<Cast>)
    requires 0 < now && 0 < pause && now + pause + AllSeconds(rest) < HALF && |first| + |rest| < HALF
    requires forall l :: l in links ==> l.ckSendto.high <= now && l.ckSendto.low < HALF
    requires forall i :: 0 <= i < |first| ==> !first[i].Tick? && Within(first[i], links)
    requires forall i :: 0 <= i < |rest| ==> Within(rest[i], links)
    modifies links
    ensures forall l :: l in links ==>
      l.out == old(l.out) + AllGiven(first, |first|, l, old(l.ckSendto), now) + AllDue(rest, l)
  {
    ghost var had := map l | l in links :: l.ckSendto;
    hide Within, AllGiven, AllDue, Ahead, AllStamped;
    var s := FirstSecond(links, first, now, had);
    AllPast(s, first, links, had, now, pause);
    var _ := Run(s, links, rest, now + pause);
  }

  lemma AllPast(s: Sender, first: seq<Cast>, links: set<Link>, had: map<Link, Cookie>, now: Word, pause: nat)
    requires s.ckSendto.high <= now && 0 < pause && AllStamped(first, |first|, links, had, now)
    requires forall l :: l in had ==> had[l].high <= now
    ensures Ahead(s, links, now + pause)
  {
  }

  /** Broadcast k of the restart's second goes wrong for a link if and only if it is the first since
      then to meet the link, and the link was restored with a stamp of that very second that is
      broadcast k's own (and the line is due) or a later one (and the link is excluded). */
  lemma RestoredExact(casts: seq<Cast>, k: nat, l: Link, had: Cookie, now: Word)
    requires k < |casts|
    ensures Given(casts, k, l, had, now) != Due(casts[k], l) <==>
      && Meets(casts[k], l) && Unmet(casts, k, l) && had.high == now
      && if l == casts[k].exclude then had.low > k else had.low == k
  {
    hide Unmet;
  }

  /** A link that carries the stamp of the second broadcast of this second from before the upgrade:
      the first broadcast after it goes elsewhere, and the second, due to the link, is lost. */
  method SecondLineLost(now: Word, m: Message) returns (l: Link)
    requires 0 < now < HALF
    ensures Due(ToChan([l], null, StAll, m), l) == [m.user] && l.out == []
  {
    var s := new Sender();
    l := new Link(LinkUser);
    l.ckSendto := Cookie(now, 1);
    CmpNear(Cookie(now, 1), Cookie(now, 1));
    hide Cmp;
    s.SendChan([], null, StAll, now, m);
    s.SendChan([l], null, StAll, now, m);
  }

  /** The same link is excluded from the first broadcast, and gets it. */
  method ExcludedGets(now: Word, m: Message) returns (l: Link)
    requires 0 < now < HALF
    ensures Due(ToChan([l], l, StAll, m), l) == [] && l.out == [m.user]
  {
    var s := new Sender();
    l := new Link(LinkUser);
    l.ckSendto := Cookie(now, 1);
    CmpNear(Cookie(now, 1), Cookie(now, 0));
    hide Cmp;
    s.SendChan([l], l, StAll, now, m);
  }
}
