/** Who is on which channel, and who is invited where (src/chan.c, src/user.c): every membership and
    every invite is recorded on both sides. */
module Membership {

  class ChanUser {
    const c: Chan
    const u: User

    constructor (c: Chan, u: User)
      ensures this.c == c && this.u == u
    {
      this.c, this.u := c, u;
    }
  }

  class Chan {
    var members: map<User, ChanUser>
    var invites: set<User>

    constructor ()
      ensures members == map[] && invites == {}
    {
      members, invites := map[], {};
    }
  }

  class User {
    var channels: map<Chan, ChanUser>
    var invites: set<Chan>

    constructor ()
      ensures channels == map[] && invites == {}
    {
      channels, invites := map[], {};
    }
  }

  /* ---------- walking a map that is deleted from ---------- */

  ghost function From<T>(order: seq<T>, i: nat): set<T>
    requires i <= |order|
  {
    set j | i <= j < |order| :: order[j]
  }

  /** u_map_each visits the keys its map holds at the start, whatever is deleted on the way, and hands
      over what the map still has for each. `order` is the order of the walk. */
  ghost predicate Lists<T>(order: seq<T>, keys: set<T>) {
    (forall i, j :: 0 <= i < j < |order| ==> order[i] != order[j]) && From(order, 0) == keys
  }

  lemma FromStep<T>(order: seq<T>, keys: set<T>, i: nat)
    requires Lists(order, keys) && i < |order|
    ensures order[i] in From(order, i) && From(order, i + 1) == From(order, i) - {order[i]}
  {
  }

  lemma ListsRest<T>(order: seq<T>, keys: set<T>)
    requires Lists(order, keys) && order != []
    ensures order[0] in keys && Lists(order[1..], keys - {order[0]})
  {
    var rest := order[1..];
    FromStep(order, keys, 0);
    forall k | k in From(order, 1)
      ensures k in From(rest, 0)
    {
      var i :| 1 <= i < |order| && order[i] == k;
      assert rest[i - 1] == k;
    }
    forall k | k in From(rest, 0)
      ensures k in From(order, 1)
    {
      var i :| 0 <= i < |rest| && rest[i] == k;
      assert order[i + 1] == k;
    }
  }

  /** Some order: which one depends on how the tree has grown. */
  method WalkOrder<T(==)>(keys: set<T>) returns (order: seq<T>)
    ensures Lists(order, keys)
  {
    order := [];
    var todo := keys;
    while todo != {}
      invariant todo <= keys && Lists(order, keys - todo)
    {
      var k :| k in todo;
      ListsAdd(order, keys - todo, k);
      order, todo := order + [k], todo - {k};
      assert keys - todo == keys - (todo + {k}) + {k};
    }
  }

  lemma ListsAdd<T>(order: seq<T>, keys: set<T>, k: T)
    requires Lists(order, keys) && k !in keys
    ensures Lists(order + [k], keys + {k})
  {
    forall x | x in keys
      ensures x in From(order + [k], 0)
    {
      var i :| 0 <= i < |order| && order[i] == x;
      assert (order + [k])[i] == x;
    }
    assert (order + [k])[|order|] == k;
    forall i | 0 <= i < |order|
      ensures order[i] != k
    {
      assert order[i] in From(order, 0);
    }
  }

  /** The member is in one map exactly when the channel is in the other, with the same record. */
  ghost predicate Same(c: Chan, u: User, members: map<User, ChanUser>, channels: map<Chan, ChanUser>) {
    (u in members <==> c in channels) &&
    (u in members ==> members[u] == channels[c] && members[u].c == c && members[u].u == u)
  }

  lemma SameAdded(c: Chan, u: User, cu: ChanUser, x: Chan, y: User, m: map<User, ChanUser>, k: map<Chan, ChanUser>)
    requires cu.c == c && cu.u == u && Same(x, y, m, k)
    ensures Same(x, y, if x == c then m[u := cu] else m, if y == u then k[c := cu] else k)
  {
  }

  lemma SameRemoved(c: Chan, u: User, x: Chan, y: User, m: map<User, ChanUser>, k: map<Chan, ChanUser>)
    requires Same(x, y, m, k)
    ensures Same(x, y, if x == c then m - {u} else m, if y == u then k - {c} else k)
  {
  }

  /** The members that are left when a user goes. */
  ghost predicate Without(now: map<User, ChanUser>, had: map<User, ChanUser>, u: User) {
    now == had - {u}
  }

  /** all_chans and users_by_uid. */
  class Network {
    var allChans: set<Chan>
    var users: set<User>

    /** Nobody refers to a channel or a user that is gone, and both sides hold the same record. */
    ghost predicate Joined()
      reads `allChans, `users, allChans`members, users`channels
    {
      (forall c :: c in allChans ==> c.members.Keys <= users) &&
      (forall u :: u in users ==> u.channels.Keys <= allChans) &&
      forall c, u {:trigger Same(c, u, c.members, u.channels)} ::
        c in allChans && u in users ==> Same(c, u, c.members, u.channels)
    }

    ghost predicate Invited()
      reads `allChans, `users, allChans`invites, users`invites
    {
      (forall c :: c in allChans ==> c.invites <= users) && (forall u :: u in users ==> u.invites <= allChans) &&
      forall c, u :: c in allChans && u in users ==> (u in c.invites <==> c in u.invites)
    }

    ghost predicate Valid()
      reads this, allChans, users
    {
      Joined() && Invited()
    }

    constructor ()
      ensures Valid() && allChans == {} && users == {}
    {
      allChans, users := {}, {};
    }

    /** u_chan_create: a channel nobody is on yet. */
    method ChanCreate() returns (c: Chan)
      requires Valid()
      modifies this`allChans
      ensures Valid() && fresh(c) && allChans == old(allChans) + {c} && c.members == map[] && c.invites == {}
    {
      c := new Chan();
      allChans := allChans + {c};
    }

    /** create_user */
    method UserCreate() returns (u: User)
      requires Valid()
      modifies this`users
      ensures Valid() && fresh(u) && users == old(users) + {u} && u.channels == map[] && u.invites == {}
    {
      u := new User();
      users := users + {u};
    }

    /** u_add_invite */
    method AddInvite(c: Chan, u: User)
      requires Valid() && c in allChans && u in users
      modifies c`invites, u`invites
      ensures Valid() && c.invites == old(c.invites) + {u} && u.invites == old(u.invites) + {c}
    {
      c.invites := c.invites + {u};
      u.invites := u.invites + {c};
    }

    /** u_del_invite */
    method DelInvite(c: Chan, u: User)
      requires Valid() && c in allChans && u in users
      modifies c`invites, u`invites
      ensures Valid() && c.invites == old(c.invites) - {u} && u.invites == old(u.invites) - {c}
    {
      c.invites := c.invites - {u};
      u.invites := u.invites - {c};
    }

    /** u_clr_invites_chan: every visit deletes from the map that is walked. */
    method ClrInvitesChan(c: Chan)
      requires Valid() && c in allChans
      modifies c`invites, users`invites
      ensures Valid() && c.invites == {}
      ensures forall u :: u in users ==> u.invites == old(u.invites) - {c}
    {
      var order := WalkOrder(c.invites);
      for i := 0 to |order|
        invariant Valid() && c.invites == From(order, i)
        invariant forall u :: u in users ==> u.invites == old(u.invites) - if u in c.invites then {} else {c}
      {
        FromStep(order, old(c.invites), i);
        DelInvite(c, order[i]);
      }
    }

    /** u_clr_invites_user */
    method ClrInvitesUser(u: User)
      requires Valid() && u in users
      modifies u`invites, allChans`invites
      ensures Valid() && u.invites == {}
      ensures forall c :: c in allChans ==> c.invites == old(c.invites) - {u}
    {
      var order := WalkOrder(u.invites);
      for i := 0 to |order|
        invariant Valid() && u.invites == From(order, i)
        invariant forall c :: c in allChans ==> c.invites == old(c.invites) - if c in u.invites then {} else {u}
      {
        FromStep(order, old(u.invites), i);
        DelInvite(order[i], u);
      }
    }

    /** u_chan_user_add */
    method ChanUserAdd(c: Chan, u: User) returns (cu: ChanUser)
      requires Valid() && c in allChans && u in users && u !in c.members
      modifies c`members, u`channels
      ensures Valid() && cu.c == c && cu.u == u
      ensures c.members == old(c.members)[u := cu] && u.channels == old(u.channels)[c := cu]
    {
      hide Invited, Same;
      cu := new ChanUser(c, u);
      c.members := c.members[u := cu];
      u.channels := u.channels[c := cu];
      forall x, y | x in allChans && y in users
        ensures Same(x, y, x.members, y.channels)
      {
        SameAdded(c, u, cu, x, y, old(x.members), old(y.channels));
      }
    }

    /** u_chan_drop, of a channel without members. */
    method ChanDrop(c: Chan)
      requires Valid() && c in allChans && c.members == map[]
      modifies this`allChans, c`invites, users`invites
      ensures Valid() && allChans == old(allChans) - {c} && c.invites == {}
      ensures forall u :: u in users ==> u.invites == old(u.invites) - {c}
    {
      forall u | u in users
        ensures c !in u.channels
      {
        assert Same(c, u, c.members, u.channels);
      }
      ClrInvitesChan(c);
      allChans := allChans - {c};
    }

    /** Both records of a membership go. */
    method Detach(c: Chan, u: User)
      requires Joined() && c in allChans && u in c.members
      modifies c`members, u`channels
      ensures Joined() && c.members == old(c.members) - {u} && u.channels == old(u.channels) - {c}
    {
      hide Same;
      c.members := c.members - {u};
      u.channels := u.channels - {c};
      forall x, y | x in allChans && y in users
        ensures Same(x, y, x.members, y.channels)
      {
        SameRemoved(c, u, x, y, old(x.members), old(y.channels));
      }
    }

    method DropIfEmpty(c: Chan) returns (dropped: bool)
      requires Valid() && c in allChans
      modifies this`allChans, c`invites, users`invites
      ensures Valid() && dropped == (c.members == map[])
      ensures allChans == old(allChans) - if dropped then {c} else {}
      ensures c.invites == if dropped then {} else old(c.invites)
      ensures forall u :: u in users ==> u.invites == old(u.invites) - if dropped then {c} else {}
    {
      hide Invited, Joined;
      dropped := |c.members| == 0;
      if dropped {
        ChanDrop(c);
      }
    }

    lemma IsUser(cu: ChanUser)
      requires Joined() && cu.c in allChans && cu.u in cu.c.members
      ensures cu.u in users
    {
    }

    /** u_chan_user_del: the last member takes the channel with him. */
    method ChanUserDel(cu: ChanUser) returns (dropped: bool)
      requires Valid() && cu.c in allChans && cu.u in cu.c.members && cu.c.members[cu.u] == cu
      modifies this`allChans, cu.c, cu.u`channels, users`invites
      ensures Valid() && dropped == (cu.c.members == map[])
      ensures cu.c.members == old(cu.c.members) - {cu.u} && cu.u.channels == old(cu.u.channels) - {cu.c}
      ensures allChans == old(allChans) - if dropped then {cu.c} else {}
      ensures cu.c.invites == if dropped then {} else old(cu.c.invites)
      ensures forall u :: u in users ==> u.invites == old(u.invites) - if dropped then {cu.c} else {}
    {
      IsUser(cu);
      hide Invited, Joined;
      Detach(cu.c, cu.u);
      dropped := DropIfEmpty(cu.c);
    }

    /** user_destroy_cb, with the record the walk hands over. */
    method PartOne(c: Chan, u: User, cu: ChanUser) returns (gone: bool)
      requires Valid() && u in users && c in u.channels && cu == u.channels[c]
      modifies this`allChans, c, u`channels, users`invites
      ensures Valid() && u.channels == old(u.channels) - {c} && c in old(allChans)
      ensures Without(c.members, old(c.members), u) && gone == (c.members == map[])
      ensures allChans == old(allChans) - if gone then {c} else {}
      ensures !gone ==> c.invites == old(c.invites)
      ensures forall v :: v in users ==> v.invites == old(v.invites) - if gone then {c} else {}
    {
      Record(c, u);
      hide Joined, Invited;
      gone := ChanUserDel(cu);
    }

    /** What the walk does to a channel of the user. */
    twostate predicate Parted(c: Chan, u: User, dropped: set<Chan>)
      reads c
    {
      Without(c.members, old(c.members), u) && (c in dropped <==> c.members == map[]) &&
      (c !in dropped ==> c.invites == old(c.invites))
    }

    /** The walk of u_user_destroy over the channels the user had at its start, in any order. Each
        visit deletes from the map that is walked, and may drop the channel; the record handed over
        at each is still the live one, the one the map held for the channel at the start. */
    method PartAll(u: User, order: seq<Chan>) returns (ghost dropped: set<Chan>, handed: seq<ChanUser?>)
      requires Valid() && u in users && Lists(order, u.channels.Keys)
      modifies this`allChans, u.channels.Keys, u`channels, users`invites
      ensures Valid() && u.channels == map[] && dropped <= old(u.channels).Keys && allChans == old(allChans) - dropped
      ensures |handed| == |order| && forall i :: 0 <= i < |order| ==> handed[i] == old(u.channels)[order[i]]
      ensures forall c :: c in old(u.channels) ==> Parted(c, u, dropped)
      ensures forall v :: v in users ==> v.invites == old(v.invites) - dropped
      decreases |order|
    {
      hide Valid, Without;
      dropped, handed := {}, [];
      if order != [] {
        ListsRest(order, u.channels.Keys);
        var c := order[0];
        var cu: ChanUser? := if c in u.channels then u.channels[c] else null;
        var gone := PartOne(c, u, cu);
        label parted:
        assert u.channels.Keys == old(u.channels).Keys - {c};
        ghost var rest;
        rest, handed := PartAll(u, order[1..]);
        handed := [cu] + handed;
        dropped := rest + if gone then {c} else {};
        forall x | x in old(u.channels)
          ensures Parted(x, u, dropped)
        {
          if x != c {
            assert Parted@parted(x, u, rest) && old@parted(x.members) == old(x.members);
          }
        }
      }
    }

    lemma Linked(u: User)
      requires Joined() && u in users
      ensures u.channels.Keys <= allChans
    {
    }

    lemma Record(c: Chan, u: User)
      requires Joined() && u in users && c in u.channels
      ensures c in allChans && u in c.members && c.members[u] == u.channels[c]
      ensures u.channels[c].c == c && u.channels[c].u == u
    {
      assert Same(c, u, c.members, u.channels);
    }

    /** u_user_destroy. What is left: the user is nowhere; he is off his channels, and those he was
        alone on are gone, with all invites to them; nothing else has changed. */
    method UserDestroy(u: User) returns (ghost dropped: set<Chan>)
      requires Valid() && u in users
      modifies this, allChans, u, users`invites
      ensures Valid() && users == old(users) - {u} && u.channels == map[] && u.invites == {}
      ensures dropped <= old(u.channels).Keys && allChans == old(allChans) - dropped
      ensures forall c :: c in old(u.channels) ==>
        c.members == old(c.members) - {u} && (c in dropped <==> c.members == map[])
      ensures forall c :: c in old(allChans) && c !in old(u.channels) ==> c.members == old(c.members)
      ensures forall c :: c in allChans ==> c.invites == old(c.invites) - {u}
      ensures forall v :: v in users ==> v.channels == old(v.channels) && v.invites == old(v.invites) - dropped
    {
      Linked(u);
      hide Joined, Invited;
      ClrInvitesUser(u);
      var order := WalkOrder(u.channels.Keys);
      var handed;
      dropped, handed := PartAll(u, order);
      Forget(u);
    }

    /** The user leaves the tables; nobody refers to him any more. */
    method Forget(u: User)
      requires Valid() && u.channels == map[] && u.invites == {} && u in users
      modifies this`users
      ensures Valid() && users == old(users) - {u}
    {
      forall c | c in allChans
        ensures u !in c.members
      {
        assert Same(c, u, c.members, u.channels);
      }
      users := users - {u};
    }
  }
}
