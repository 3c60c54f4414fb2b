/** Whole runs of src/chan.c and src/user.c: channels and users come and go, users join, part, are
    invited and are destroyed, in any order. The maps on both sides hold at every moment what a plain
    relation of who is where holds. */
module MembershipRuns {
  import opened Membership

  /** The channels and users there are, who is on what, and who is invited where. */
  datatype Plain = Plain(chans: set<Chan>, users: set<User>, member: set<(Chan, User)>, invited: set<(Chan, User)>)

  datatype Act =
    | NewChan(c: Chan)
    | NewUser(u: User)
    | Join(c: Chan, u: User)
    | Part(c: Chan, u: User)
    | Invite(c: Chan, u: User)
    | Uninvite(c: Chan, u: User)
    | Destroy(u: User)

  /** What callers check: nobody joins twice, and only what exists is used. */
  ghost predicate Allowed(a: Plain, act: Act) {
    match act
    case NewChan(c) => c !in a.chans
    case NewUser(u) => u !in a.users
    case Join(c, u) => c in a.chans && u in a.users && (c, u) !in a.member
    case Part(c, u) => (c, u) in a.member
    case Invite(c, u) => c in a.chans && u in a.users
    case Uninvite(c, u) => c in a.chans && u in a.users
    case Destroy(u) => u in a.users
  }

  /** The channels among these that nobody is on. */
  ghost function Deserted(a: Plain, cs: set<Chan>): set<Chan> {
    set c | c in cs && forall p :: p in a.member ==> p.0 != c
  }

  /** They go, and nobody is invited to them any more. */
  ghost function Swept(a: Plain, cs: set<Chan>): Plain {
    a.(chans := a.chans - Deserted(a, cs), invited := set p | p in a.invited && p.0 !in Deserted(a, cs))
  }

  ghost function ChansOf(a: Plain, u: User): set<Chan> {
    set p | p in a.member && p.1 == u :: p.0
  }

  ghost function WithoutUser(a: Plain, u: User): Plain {
    Plain(a.chans, a.users - {u}, set p | p in a.member && p.1 != u, set p | p in a.invited && p.1 != u)
  }

  ghost function Step(a: Plain, act: Act): Plain {
    match act
    case NewChan(c) => a.(chans := a.chans + {c})
    case NewUser(u) => a.(users := a.users + {u})
    case Join(c, u) => a.(member := a.member + {(c, u)})
    case Part(c, u) => Swept(a.(member := a.member - {(c, u)}), {c})
    case Invite(c, u) => a.(invited := a.invited + {(c, u)})
    case Uninvite(c, u) => a.(invited := a.invited - {(c, u)})
    case Destroy(u) => Swept(WithoutUser(a, u), ChansOf(a, u))
  }

  ghost function AllSteps(a: Plain, acts: seq<Act>): Plain {
    if acts == [] then a else Step(AllSteps(a, acts[..|acts| - 1]), acts[|acts| - 1])
  }

  ghost predicate Held(c: Chan, u: User, a: Plain, members: map<User, ChanUser>, invites: set<User>) {
    (u in members <==> (c, u) in a.member) && (u in invites <==> (c, u) in a.invited)
  }

  /** The network holds just this relation, on both sides. */
  ghost predicate Agrees(n: Network, a: Plain)
    reads n, n.allChans, n.users
  {
    n.Valid() && n.allChans == a.chans && n.users == a.users && Closed(a) &&
    forall c, u {:trigger Held(c, u, a, c.members, c.invites)} ::
      c in a.chans && u in a.users ==> Held(c, u, a, c.members, c.invites)
  }

  ghost predicate Closed(a: Plain) {
    (forall p :: p in a.member ==> p.0 in a.chans && p.1 in a.users) &&
    (forall p :: p in a.invited ==> p.0 in a.chans && p.1 in a.users)
  }

  /** A map of members is empty exactly when the relation has nobody there. */
  lemma Emptied(members: map<User, ChanUser>, c: Chan, users: set<User>, member: set<(Chan, User)>)
    requires members.Keys <= users && forall p :: p in member ==> p.1 in users
    requires forall u :: u in users ==> (u in members <==> (c, u) in member)
    ensures members == map[] <==> forall p :: p in member ==> p.0 != c
  {
    if members != map[] {
      var u :| u in members;
      assert (c, u) in member;
    }
    forall p | p in member && p.0 == c
      ensures p.1 in members
    {
      assert p == (c, p.1);
    }
  }

  method DoJoin(n: Network, c: Chan, u: User, ghost a: Plain)
    requires Agrees(n, a) && Allowed(a, Join(c, u))
    modifies c`members, u`channels
    ensures Agrees(n, Step(a, Join(c, u)))
  {
    hide Network.Valid;
    assert Held(c, u, a, c.members, c.invites);
    var _ := n.ChanUserAdd(c, u);
    ghost var b := Step(a, Join(c, u));
    forall x, y | x in b.chans && y in b.users
      ensures Held(x, y, b, x.members, x.invites)
    {
      assert old(Held(x, y, a, x.members, x.invites));
    }
  }

  method DoInvite(n: Network, c: Chan, u: User, ghost a: Plain)
    requires Agrees(n, a) && Allowed(a, Invite(c, u))
    modifies c`invites, u`invites
    ensures Agrees(n, Step(a, Invite(c, u)))
  {
    hide Network.Valid;
    n.AddInvite(c, u);
    ghost var b := Step(a, Invite(c, u));
    forall x, y | x in b.chans && y in b.users
      ensures Held(x, y, b, x.members, x.invites)
    {
      assert old(Held(x, y, a, x.members, x.invites));
    }
  }

  method DoUninvite(n: Network, c: Chan, u: User, ghost a: Plain)
    requires Agrees(n, a) && Allowed(a, Uninvite(c, u))
    modifies c`invites, u`invites
    ensures Agrees(n, Step(a, Uninvite(c, u)))
  {
    hide Network.Valid;
    n.DelInvite(c, u);
    ghost var b := Step(a, Uninvite(c, u));
    forall x, y | x in b.chans && y in b.users
      ensures Held(x, y, b, x.members, x.invites)
    {
      assert old(Held(x, y, a, x.members, x.invites));
    }
  }

  /** What a parting leaves of the relation. */
  lemma PartIs(a: Plain, c: Chan, u: User, dropped: bool)
    requires c in a.chans && Closed(a) && dropped == forall p :: p in a.member - {(c, u)} ==> p.0 != c
    ensures var b := Step(a, Part(c, u)); var gone: set<Chan> := if dropped then {c} else {};
            Closed(b) && b.chans == a.chans - gone && b.users == a.users && b.member == a.member - {(c, u)} &&
            forall p :: p in b.invited <==> p in a.invited && p.0 !in gone
  {
    var a1 := a.(member := a.member - {(c, u)});
    assert Deserted(a1, {c}) == if dropped then {c} else {};
  }

  lemma PartLeaves(n: Network, c: Chan, u: User, a: Plain)
    requires Agrees(n, a) && Allowed(a, Part(c, u))
    ensures c in n.allChans && u in c.members && c.members[u].c == c && c.members[u].u == u
    ensures c.members - {u} == map[] <==> forall p :: p in a.member - {(c, u)} ==> p.0 != c
  {
    assert Held(c, u, a, c.members, c.invites) && Same(c, u, c.members, u.channels);
    assert c.members.Keys <= n.users;
    forall y | y in a.users
      ensures y in c.members - {u} <==> (c, y) in a.member - {(c, u)}
    {
      assert Held(c, y, a, c.members, c.invites);
    }
    Emptied(c.members - {u}, c, a.users, a.member - {(c, u)});
  }

  lemma HeldParted(a: Plain, c: Chan, u: User, gone: set<Chan>, b: Plain, x: Chan, y: User,
                   members: map<User, ChanUser>, invites: set<User>)
    requires Held(x, y, a, members, invites) && x !in gone && b.member == a.member - {(c, u)}
    requires forall p :: p in b.invited <==> p in a.invited && p.0 !in gone
    ensures Held(x, y, b, if x == c then members - {u} else members, invites)
  {
  }

  /** u_chan_user_del on the record the channel has for the user. */
  method DoPart(n: Network, c: Chan, u: User, ghost a: Plain)
    requires Agrees(n, a) && Allowed(a, Part(c, u))
    modifies n`allChans, c, u`channels, n.users`invites
    ensures Agrees(n, Step(a, Part(c, u)))
  {
    PartLeaves(n, c, u, a);
    assert Closed(a) && c in a.chans;
    hide Network.Valid, Step, Closed, Allowed, Held;
    var dropped := n.ChanUserDel(c.members[u]);
    PartIs(a, c, u, dropped);
    ghost var b := Step(a, Part(c, u));
    ghost var gone: set<Chan> := if dropped then {c} else {};
    forall x, y | x in b.chans && y in b.users
      ensures Held(x, y, b, x.members, x.invites)
    {
      HeldParted(a, c, u, gone, b, x, y, old(x.members), old(x.invites));
    }
  }

  /** What a user leaves of the relation when he goes. */
  lemma DestroyIs(a: Plain, u: User, dropped: set<Chan>)
    requires Closed(a) && dropped <= ChansOf(a, u)
    requires forall c :: c in ChansOf(a, u) ==> (c in dropped <==> forall p :: p in a.member && p.1 != u ==> p.0 != c)
    ensures var b := Step(a, Destroy(u));
            Closed(b) && b.chans == a.chans - dropped && b.users == a.users - {u} &&
            (forall p :: p in b.member <==> p in a.member && p.1 != u) &&
            forall p :: p in b.invited <==> p in a.invited && p.1 != u && p.0 !in dropped
  {
    var a1 := WithoutUser(a, u);
    assert Deserted(a1, ChansOf(a, u)) == dropped;
    forall p | p in a1.member
      ensures p.0 !in dropped
    {
    }
  }

  /** Whom a channel has without this user. */
  lemma LeftOn(n: Network, c: Chan, u: User, a: Plain)
    requires Agrees(n, a) && c in a.chans
    ensures c.members - {u} == map[] <==> forall p :: p in a.member && p.1 != u ==> p.0 != c
  {
    var member := set p | p in a.member && p.1 != u;
    assert c.members.Keys <= n.users;
    forall y | y in a.users
      ensures y in c.members - {u} <==> (c, y) in member
    {
      assert Held(c, y, a, c.members, c.invites);
    }
    Emptied(c.members - {u}, c, a.users, member);
    assert (forall p :: p in member ==> p.0 != c) <==> forall p :: p in a.member && p.1 != u ==> p.0 != c;
  }

  method DoDestroy(n: Network, u: User, ghost a: Plain)
    requires Agrees(n, a) && Allowed(a, Destroy(u))
    modifies n, n.allChans, u, n.users`invites
    ensures Agrees(n, Step(a, Destroy(u)))
  {
    UserChans(n, u, a);
    forall c | c in u.channels
      ensures c in a.chans && (c.members - {u} == map[] <==> forall p :: p in a.member && p.1 != u ==> p.0 != c)
    {
      assert n.Joined();
      LeftOn(n, c, u, a);
    }
    hide Network.Valid, Step, Closed, ChansOf;
    ghost var dropped := n.UserDestroy(u);
    DestroyIs(a, u, dropped);
    ghost var b := Step(a, Destroy(u));
    forall x, y | x in b.chans && y in b.users
      ensures Held(x, y, b, x.members, x.invites)
    {
      assert old(Held(x, y, a, x.members, x.invites));
      assert x in old(u.channels) ==> x.members == old(x.members) - {u};
    }
  }

  lemma UserChans(n: Network, u: User, a: Plain)
    requires Agrees(n, a) && u in a.users
    ensures ChansOf(a, u) == u.channels.Keys
  {
    forall c | c in u.channels
      ensures c in ChansOf(a, u)
    {
      assert Same(c, u, c.members, u.channels) && Held(c, u, a, c.members, c.invites);
      assert (c, u) in a.member;
    }
    forall p | p in a.member && p.1 == u
      ensures p.0 in u.channels
    {
      assert Held(p.0, u, a, p.0.members, p.0.invites) && Same(p.0, u, p.0.members, u.channels);
    }
  }

  /* ---------- a run ---------- */

  /** What happens next, channels and users by the number in which they were created. */
  datatype Wish =
    | AddChan
    | AddUser
    | AskJoin(i: nat, j: nat)
    | AskPart(i: nat, j: nat)
    | AskInvite(i: nat, j: nat)
    | AskUninvite(i: nat, j: nat)
    | AskDestroy(j: nat)

  ghost predicate AllAllowed(acts: seq<Act>) {
    forall k :: 0 <= k < |acts| ==> Allowed(AllSteps(NOBODY, acts[..k]), acts[k])
  }

  const NOBODY := Plain({}, {}, {}, {})

  lemma OneMoreAct(acts: seq<Act>, act: Act)
    requires AllAllowed(acts) && Allowed(AllSteps(NOBODY, acts), act)
    ensures AllAllowed(acts + [act]) && AllSteps(NOBODY, acts + [act]) == Step(AllSteps(NOBODY, acts), act)
  {
    hide Allowed, Step;
    var more := acts + [act];
    assert more[..|acts|] == acts;
    forall k | 0 <= k < |more|
      ensures Allowed(AllSteps(NOBODY, more[..k]), more[k])
    {
      assert more[..k] == acts[..k];
      assert k == |acts| ==> acts[..k] == acts;
    }
  }

  /** What callers check before they act, on the network itself. */
  method Check(n: Network, act: Act, ghost a: Plain) returns (ok: bool)
    requires Agrees(n, a) && !act.NewChan? && !act.NewUser?
    ensures ok <==> Allowed(a, act)
  {
    match act
    case Join(c, u) =>
      assert c in a.chans && u in a.users ==> Held(c, u, a, c.members, c.invites);
      ok := c in n.allChans && u in n.users && u !in c.members;
    case Part(c, u) =>
      assert c in a.chans && u in a.users ==> Held(c, u, a, c.members, c.invites);
      ok := c in n.allChans && u in n.users && u in c.members;
    case Invite(c, u) => ok := c in n.allChans && u in n.users;
    case Uninvite(c, u) => ok := c in n.allChans && u in n.users;
    case Destroy(u) => ok := u in n.users;
  }

  method Do(n: Network, act: Act, ghost a: Plain)
    requires Agrees(n, a) && Allowed(a, act) && !act.NewChan? && !act.NewUser?
    modifies n, n.allChans, n.users
    ensures Agrees(n, Step(a, act)) && n.allChans <= old(n.allChans) && n.users <= old(n.users)
  {
    Live(n, act, a);
    hide Agrees, Step;
    match act
    case Join(c, u) => DoJoin(n, c, u, a);
    case Part(c, u) => DoPart(n, c, u, a);
    case Invite(c, u) => DoInvite(n, c, u, a);
    case Uninvite(c, u) => DoUninvite(n, c, u, a);
    case Destroy(u) => DoDestroy(n, u, a);
  }

  lemma Live(n: Network, act: Act, a: Plain)
    requires Agrees(n, a) && Allowed(a, act) && !act.NewChan? && !act.NewUser?
    ensures act.u in n.users && (!act.Destroy? ==> act.c in n.allChans)
  {
  }

  method DoNewChan(n: Network, ghost a: Plain) returns (c: Chan)
    requires Agrees(n, a)
    modifies n`allChans
    ensures fresh(c) && Allowed(a, NewChan(c)) && Agrees(n, Step(a, NewChan(c)))
    ensures n.allChans == old(n.allChans) + {c}
  {
    hide Network.Valid;
    c := n.ChanCreate();
    ghost var b := Step(a, NewChan(c));
    forall x, y | x in b.chans && y in b.users
      ensures Held(x, y, b, x.members, x.invites)
    {
      assert x != c ==> old(Held(x, y, a, x.members, x.invites));
    }
  }

  method DoNewUser(n: Network, ghost a: Plain) returns (u: User)
    requires Agrees(n, a)
    modifies n`users
    ensures fresh(u) && Allowed(a, NewUser(u)) && Agrees(n, Step(a, NewUser(u)))
    ensures n.users == old(n.users) + {u}
  {
    KeysAreUsers(n);
    hide Network.Valid;
    u := n.UserCreate();
    ghost var b := Step(a, NewUser(u));
    forall x, y | x in b.chans && y in b.users
      ensures Held(x, y, b, x.members, x.invites)
    {
      assert y != u ==> old(Held(x, y, a, x.members, x.invites));
    }
  }

  lemma KeysAreUsers(n: Network)
    requires n.Valid()
    ensures forall c :: c in n.allChans ==> c.members.Keys <= n.users && c.invites <= n.users
  {
  }

  function Named(cs: seq<Chan>, us: seq<User>, w: Wish): seq<Act> {
    match w
    case AddChan => []
    case AddUser => []
    case AskJoin(i, j) => if i < |cs| && j < |us| then [Join(cs[i], us[j])] else []
    case AskPart(i, j) => if i < |cs| && j < |us| then [Part(cs[i], us[j])] else []
    case AskInvite(i, j) => if i < |cs| && j < |us| then [Invite(cs[i], us[j])] else []
    case AskUninvite(i, j) => if i < |cs| && j < |us| then [Uninvite(cs[i], us[j])] else []
    case AskDestroy(j) => if j < |us| then [Destroy(us[j])] else []
  }

  /** Any run from nothing: whatever is created, joined, parted, invited and destroyed in whatever
      order, the maps on both sides hold exactly the plain relation of what was done. */
  method Run(script: seq<Wish>) returns (n: Network, ghost acts: seq<Act>)
    ensures fresh(n) && AllAllowed(acts) && Agrees(n, AllSteps(NOBODY, acts))
  {
    n := new Network();
    acts := [];
    var cs: seq<Chan>, us: seq<User> := [], [];
    for k := 0 to |script|
      invariant fresh(n) && fresh(n.allChans) && fresh(n.users)
      invariant AllAllowed(acts) && Agrees(n, AllSteps(NOBODY, acts))
    {
      hide Agrees, Allowed, AllAllowed, AllSteps, Step, Named;
      ghost var a := AllSteps(NOBODY, acts);
      if script[k].AddChan? {
        var c := DoNewChan(n, a);
        OneMoreAct(acts, NewChan(c));
        cs, acts := cs + [c], acts + [NewChan(c)];
      } else if script[k].AddUser? {
        var u := DoNewUser(n, a);
        OneMoreAct(acts, NewUser(u));
        us, acts := us + [u], acts + [NewUser(u)];
      } else {
        var act := Named(cs, us, script[k]);
        NotNew(cs, us, script[k]);
        if act != [] {
          var ok := Check(n, act[0], a);
          if ok {
            Do(n, act[0], a);
            OneMoreAct(acts, act[0]);
            acts := acts + [act[0]];
          }
        }
      }
    }
  }

  lemma NotNew(cs: seq<Chan>, us: seq<User>, w: Wish)
    ensures forall act :: act in Named(cs, us, w) ==> !act.NewChan? && !act.NewUser?
  {
  }
}
