/** The life cycle of the requests of the URL polling loop (src/curl_looper.cc, src/curl_looper.hh). */
module CurlLooper {

  class Request {
    const name: string
    const handle: int
    var open: bool

    constructor (name: string, handle: int)
      ensures this.name == name && this.handle == handle && open
    {
      this.name, this.handle, open := name, handle, true;
    }
  }

  /** A request that waits until a time to be performed again. */
  datatype Poll = Poll(at: int, cr: Request)

  const LONG_MAX := 0x7FFF_FFFF_FFFF_FFFF

  /** What libcurl reports, together with what the request answers when it is told that it is complete
      and the time it is then. */
  datatype Message = Message(done: bool, handle: int, delay: int, now: int)

  // ---------- Lists of requests ----------

  ghost function Elems<T>(s: seq<T>): set<T> {
    set x | x in s
  }

  ghost function Waiting(q: seq<Poll>): set<Request> {
    set p | p in q :: p.cr
  }

  ghost predicate NoDuplicates<T>(s: seq<T>) {
    forall i, j :: 0 <= i < j < |s| ==> s[i] != s[j]
  }

  ghost function Running(m: map<int, Request>): set<Request> {
    set h | h in m :: m[h]
  }

  /** Every name and every handle once. */
  ghost predicate Distinct(s: seq<Request>) {
    forall i, j :: 0 <= i < j < |s| ==> s[i] != s[j] && s[i].name != s[j].name && s[i].handle != s[j].handle
  }

  ghost predicate DistinctPolls(q: seq<Poll>) {
    forall i, j :: 0 <= i < j < |q| ==> q[i].cr != q[j].cr
  }

  ghost predicate Sorted(q: seq<Poll>) {
    forall i, j :: 0 <= i < j < |q| ==> q[i].at <= q[j].at
  }

  function Without<T(==)>(s: seq<T>, k: nat): seq<T>
    requires k < |s|
  {
    s[..k] + s[k + 1..]
  }

  lemma WithoutElems<T>(s: seq<T>, k: nat)
    requires k < |s| && NoDuplicates(s)
    ensures Elems(Without(s, k)) == Elems(s) - {s[k]} && NoDuplicates(Without(s, k))
  {
    var t := Without(s, k);
    forall x ensures x in t <==> x in s && x != s[k] {
      if x in t {
        var i :| 0 <= i < |t| && t[i] == x;
        assert x == if i < k then s[i] else s[i + 1];
      }
      if x in s && x != s[k] {
        var i :| 0 <= i < |s| && s[i] == x;
        assert x == if i < k then t[i] else t[i - 1];
      }
    }
  }

  lemma WithoutWaiting(q: seq<Poll>, k: nat)
    requires k < |q| && DistinctPolls(q) && Sorted(q)
    ensures Waiting(Without(q, k)) == Waiting(q) - {q[k].cr}
    ensures DistinctPolls(Without(q, k)) && Sorted(Without(q, k))
  {
    assert NoDuplicates(q);
    WithoutElems(q, k);
    assert forall p :: p in Without(q, k) <==> p in Elems(q) - {q[k]};
    forall cr ensures cr in Waiting(Without(q, k)) <==> cr in Waiting(q) && cr != q[k].cr {
      if cr in Waiting(q) && cr != q[k].cr {
        var p :| p in q && p.cr == cr;
        assert p in Without(q, k);
      }
      if cr in Waiting(Without(q, k)) {
        var p :| p in Without(q, k) && p.cr == cr;
        assert p in Elems(q) && p != q[k];
        var i :| 0 <= i < |q| && q[i] == p;
      }
    }
  }

  // ---------- The looper ----------

  lemma InsertWaiting(q: seq<Poll>, k: nat, p: Poll)
    requires k <= |q| && Sorted(q) && DistinctPolls(q) && p.cr !in Waiting(q)
    requires forall i :: 0 <= i < k ==> q[i].at <= p.at
    requires k < |q| ==> p.at <= q[k].at
    ensures var r := q[..k] + [p] + q[k..];
      Sorted(r) && DistinctPolls(r) && Waiting(r) == Waiting(q) + {p.cr}
  {
    var r := q[..k] + [p] + q[k..];
    forall i | 0 <= i < |q| ensures q[i].cr in Waiting(q) && q[i].cr in Waiting(r) {
      assert r[if i < k then i else i + 1] == q[i];
      assert q[i] in q && q[i] in r;
    }
    assert r[k] == p && p in r;
  }

  /** The requests not of this name. */
  ghost function NotNamed(s: seq<Request>, name: string): seq<Request> {
    if s == [] then []
    else (if s[0].name == name then [] else [s[0]]) + NotNamed(s[1..], name)
  }

  lemma {:induction false} NotNamedMember(s: seq<Request>, name: string, r: Request)
    ensures r in NotNamed(s, name) <==> r in s && r.name != name
  {
    if s != [] {
      NotNamedMember(s[1..], name, r);
    }
  }

  ghost predicate DueBefore(q: seq<Poll>, n: nat, upTo: int) {
    n <= |q| && forall i :: 0 <= i < n ==> q[i].at <= upTo
  }

  /** In a sorted queue the due ones come first. */
  lemma DueExactly(q: seq<Poll>, n: nat, upTo: int)
    requires Sorted(q) && DueBefore(q, n, upTo) && (n < |q| ==> q[n].at > upTo)
    ensures forall i :: 0 <= i < |q| ==> (i < n <==> q[i].at <= upTo)
  {
  }

  lemma RequeuedOne(q: seq<Poll>, n: nat, cr: Request)
    requires n < |q| && q[n].cr == cr
    ensures Waiting(q[..n + 1]) == Waiting(q[..n]) + {cr} && q[n..][1..] == q[n + 1..]
  {
    assert q[..n + 1] == q[..n] + [q[n]];
  }

  lemma {:induction false} NoneNamed(s: seq<Request>, name: string)
    requires forall i :: 0 <= i < |s| ==> s[i].name != name
    ensures NotNamed(s, name) == s
  {
    if s != [] {
      NoneNamed(s[1..], name);
    }
  }

  lemma {:induction false} NotNamedIs(s: seq<Request>, name: string, k: nat)
    requires Distinct(s) && k <= |s| && (k < |s| ==> s[k].name == name)
    requires forall i :: 0 <= i < k ==> s[i].name != name
    ensures NotNamed(s, name) == if k < |s| then Without(s, k) else s
    decreases |s|
  {
    if k == |s| {
      NoneNamed(s, name);
    } else if k > 0 {
      NotNamedIs(s[1..], name, k - 1);
      assert [s[0]] + Without(s[1..], k - 1) == Without(s, k);
    } else {
      assert forall i | 0 <= i < |s[1..]| :: s[1..][i].name != name;
      NoneNamed(s[1..], name);
    }
  }

  lemma SameHandle(s: seq<Request>, a: Request, b: Request)
    requires Distinct(s) && a in s && b in s && a.handle == b.handle
    ensures a == b
  {
    var i :| 0 <= i < |s| && s[i] == a;
    var j :| 0 <= j < |s| && s[j] == b;
  }

  lemma SameName(s: seq<Request>, a: Request, b: Request)
    requires Distinct(s) && a in s && b in s && a.name == b.name
    ensures a == b
  {
    var i :| 0 <= i < |s| && s[i] == a;
    var j :| 0 <= j < |s| && s[j] == b;
  }

  lemma ValuesAdd(m: map<int, Request>, h: int, cr: Request)
    requires h !in m
    ensures Running(m[h := cr]) == Running(m) + {cr}
  {
    var m' := m[h := cr];
    assert h in m' && m'[h] == cr;
    forall v | v in Running(m) ensures v in Running(m') {
      var k :| k in m && m[k] == v;
      assert k in m' && m'[k] == v;
    }
  }

  lemma ValuesRemove(m: map<int, Request>, h: int)
    requires h in m && forall k :: k in m ==> m[k].handle == k
    ensures Running(m - {h}) == Running(m) - {m[h]}
  {
    var m' := m - {h};
    forall v | v in Running(m) && v != m[h] ensures v in Running(m') {
      var k :| k in m && m[k] == v;
      assert k in m' && m'[k] == v;
    }
  }

  lemma InsertMultiset<T>(s: seq<T>, k: nat, x: T)
    requires k <= |s|
    ensures multiset(s[..k] + [x] + s[k..]) == multiset(s) + multiset{x}
  {
    assert s == s[..k] + s[k..];
  }

  /** Those of `live` whose names are not in `names` are left. */
  ghost predicate LeftOf(all: seq<Request>, live: seq<Request>, names: seq<string>) {
    && (forall r :: r in all ==> r in live && r.name !in names)
    && (forall r :: r in live && r.name !in names ==> r in all)
    && Elems(all) <= Elems(live)
  }

  lemma OneNameMore(all: seq<Request>, live: seq<Request>, names: seq<string>, name: string)
    requires LeftOf(all, live, names)
    ensures LeftOf(NotNamed(all, name), live, [name] + names)
    ensures Elems(NotNamed(all, name)) <= Elems(all)
  {
    var rest := NotNamed(all, name);
    forall r | r in rest ensures r in all && r.name != name {
      NotNamedMember(all, name, r);
    }
    forall r | r in all && r.name != name ensures r in rest {
      NotNamedMember(all, name, r);
    }
    assert forall r | r in Elems(rest) :: r in rest && r in Elems(all);
  }

  class Looper {
    var all: seq<Request>
    var newcomers: seq<Request>
    var closing: seq<string>
    var active: map<int, Request>
    var multi: set<int>
    var poll: seq<Poll>
    ghost var closed: set<Request>
    ghost var Repr: set<Request>

    /** Every live request is open and in exactly one of the three places, or one of `moving`, on their
        way between two; libcurl's handles are those of the active requests; the poll queue is in order
        of time; a closed request is not open, and so not live. */
    ghost predicate Placed(moving: set<Request>)
      reads this, Repr
    {
      && Distinct(all) && NoDuplicates(newcomers) && DistinctPolls(poll) && Sorted(poll)
      && Elems(newcomers) + Running(active) + Waiting(poll) + moving == Elems(all)
      && Elems(newcomers) !! Running(active) && Elems(newcomers) !! Waiting(poll) && Running(active) !! Waiting(poll)
      && moving !! Elems(newcomers) + Running(active) + Waiting(poll)
      && (forall h :: h in active ==> active[h].handle == h)
      && multi == active.Keys
      && Elems(all) <= Repr && closed <= Repr
      && (forall r :: r in all ==> r in Repr && r.open)
      && forall r :: r in closed ==> !r.open
    }

    ghost predicate Valid()
      reads this, Repr
    {
      Placed({})
    }

    ghost predicate Pending(cr: Request)
      reads this, Repr
    {
      Placed({cr})
    }

    constructor ()
      ensures Valid() && all == [] && closing == [] && closed == {}
    {
      all, newcomers, closing, poll := [], [], [], [];
      active, multi, closed, Repr := map[], {}, {}, {};
    }

    /** `add_request`: a request that is new, under a name and a handle of its own. */
    method AddRequest(cr: Request)
      requires Valid() && cr.open
      requires forall r :: r in all ==> r.name != cr.name && r.handle != cr.handle
      modifies this
      ensures Valid() && all == old(all) + [cr] && newcomers == old(newcomers) + [cr]
      ensures Repr == old(Repr) + {cr}
      ensures active == old(active) && poll == old(poll) && closing == old(closing) && closed == old(closed)
    {
      assert cr !in all;
      assert cr !in Elems(all) && Elems(newcomers) <= Elems(all) && Running(active) <= Elems(all);
      all := all + [cr];
      newcomers := newcomers + [cr];
      Repr := Repr + {cr};
      assert Elems(all) == old(Elems(all)) + {cr} && Elems(newcomers) == old(Elems(newcomers)) + {cr};
    }

    /** `close_request`. */
    method CloseRequest(name: string)
      requires Valid()
      modifies this`closing
      ensures Valid() && closing == old(closing) + [name]
    {
      closing := closing + [name];
    }

    /** Handles are distinct, so that of a request that is not active is free. */
    lemma HandleFree(cr: Request)
      requires Pending(cr)
      ensures cr.handle !in active
    {
      if cr.handle in active {
        assert active[cr.handle] in Running(active) && active[cr.handle] in Elems(all);
        SameHandle(all, cr, active[cr.handle]);
      }
    }

    /** Makes a live request that is in none of the three places active. */
    method Activate(cr: Request)
      requires Pending(cr)
      modifies this`active, this`multi
      ensures Valid() && active == old(active)[cr.handle := cr] && cr.handle !in old(active)
    {
      HandleFree(cr);
      active := active[cr.handle := cr];
      multi := multi + {cr.handle};
      ValuesAdd(old(active), cr.handle, cr);
    }

    lemma TakeWaiting()
      requires Valid() && poll != []
      ensures var rest := poll[1..];
        && DistinctPolls(rest) && Sorted(rest) && Waiting(rest) == Waiting(poll) - {poll[0].cr}
        && poll[0].cr in Waiting(poll)
    {
      assert Without(poll, 0) == poll[1..];
      WithoutWaiting(poll, 0);
    }

    /** The first in the queue becomes active. */
    method RequeueFirst()
      requires Valid() && poll != []
      modifies this`active, this`multi, this`poll
      ensures Valid() && poll == old(poll)[1..]
      ensures Running(active) == Running(old(active)) + {old(poll)[0].cr}
    {
      var cr := poll[0].cr;
      TakeWaiting();
      poll := poll[1..];
      ghost var before := active;
      Activate(cr);
      ValuesAdd(before, cr.handle, cr);
    }

    /** `requeue_requests`: the `n` requests that are due become active, later ones are left. */
    method Requeue(upTo: int) returns (ghost n: nat)
      requires Valid()
      modifies this`active, this`multi, this`poll
      ensures Valid() && n <= |old(poll)| && poll == old(poll)[n..]
      ensures forall i :: 0 <= i < |old(poll)| ==> (i < n <==> old(poll)[i].at <= upTo)
      ensures Running(active) == Running(old(active)) + Waiting(old(poll)[..n])
    {
      n := 0;
      ghost var q, before := poll, Running(active);
      assert Waiting(q[..0]) == {};
      while poll != [] && poll[0].at <= upTo
        invariant Valid() && 0 <= n <= |q| && poll == q[n..]
        invariant DueBefore(q, n, upTo)
        invariant Running(active) == before + Waiting(q[..n])
        decreases |poll|
      {
        RequeueFirst();
        RequeuedOne(q, n, q[n].cr);
        n := n + 1;
      }
      DueExactly(q, n, upTo);
    }

    /** The first half of `check_for_new_requests`: all new requests become active. */
    method StartNew()
      requires Valid()
      modifies this`active, this`multi, this`newcomers
      ensures Valid() && newcomers == [] && Running(active) == Running(old(active)) + Elems(old(newcomers))
    {
      while newcomers != []
        invariant Valid()
        invariant Running(active) + Elems(newcomers) == Running(old(active)) + Elems(old(newcomers))
        decreases |newcomers|
      {
        var last := |newcomers| - 1;
        var cr := newcomers[last];
        assert cr in Elems(newcomers);
        WithoutElems(newcomers, last);
        assert Without(newcomers, last) == newcomers[..last];
        newcomers := newcomers[..last];
        ghost var before := active;
        Activate(cr);
        ValuesAdd(before, cr.handle, cr);
      }
      assert Elems<Request>([]) == {};
    }

    /** `find_if` over the live requests. */
    method FindByName(name: string) returns (k: nat)
      ensures k <= |all| && (k < |all| ==> all[k].name == name)
      ensures forall i :: 0 <= i < k ==> all[i].name != name
    {
      k := 0;
      while k < |all| && all[k].name != name
        invariant k <= |all| && forall i :: 0 <= i < k ==> all[i].name != name
      {
        k := k + 1;
      }
    }

    /** `find_if` over the poll queue. */
    method FindWaiting(name: string) returns (k: nat)
      ensures k <= |poll| && (k < |poll| ==> poll[k].cr.name == name)
      ensures forall i :: 0 <= i < k ==> poll[i].cr.name != name
    {
      k := 0;
      while k < |poll| && poll[k].cr.name != name
        invariant k <= |poll| && forall i :: 0 <= i < k ==> poll[i].cr.name != name
      {
        k := k + 1;
      }
    }

    lemma InOnePlace(cr: Request)
      requires Valid() && cr in all && newcomers == []
      ensures cr in Running(active) <==> cr.handle in active
      ensures cr in Running(active) <==> !(exists k :: 0 <= k < |poll| && poll[k].cr.name == cr.name)
    {
      if cr.handle in active {
        assert active[cr.handle] in Running(active) && active[cr.handle] in Elems(all);
        SameHandle(all, cr, active[cr.handle]);
      }
      if k :| 0 <= k < |poll| && poll[k].cr.name == cr.name {
        assert poll[k].cr in Waiting(poll) && poll[k].cr in Elems(all);
        SameName(all, cr, poll[k].cr);
      }
      assert cr in Elems(all);
      if cr in Waiting(poll) {
        var p :| p in poll && p.cr == cr;
      }
    }

    /** Takes a request out of the places it may be active or waiting in. */
    method Withdraw(cr: Request)
      requires Valid() && cr in all && newcomers == []
      modifies this`active, this`multi, this`poll
      ensures Pending(cr)
    {
      InOnePlace(cr);
      if cr.handle in active {
        assert active[cr.handle] == cr by {
          assert active[cr.handle] in Running(active) && active[cr.handle] in Elems(all);
          SameHandle(all, cr, active[cr.handle]);
        }
        ValuesRemove(active, cr.handle);
        multi := multi - {cr.handle};
        active := active - {cr.handle};
      }
      var k := FindWaiting(cr.name);
      if k < |poll| {
        assert poll[k].cr == cr by {
          assert poll[k].cr in Waiting(poll) && poll[k].cr in Elems(all);
          SameName(all, cr, poll[k].cr);
        }
        WithoutWaiting(poll, k);
        poll := Without(poll, k);
      }
    }

    /** Drops a withdrawn request from the live ones. */
    method Drop(cr: Request, k: nat)
      requires Pending(cr) && k < |all| && all[k] == cr
      modifies this`all
      ensures Valid() && all == Without(old(all), k)
    {
      assert NoDuplicates(all);
      WithoutElems(all, k);
      all := Without(all, k);
    }

    /** One turn of the second half of `check_for_new_requests`. */
    method CloseNamed(name: string)
      requires Valid() && newcomers == []
      modifies this`all, this`active, this`multi, this`poll, this`closed, Repr`open
      ensures Valid() && newcomers == []
      ensures all == NotNamed(old(all), name)
      ensures closed == old(closed) + Elems(old(all)) - Elems(all)
    {
      var k := FindByName(name);
      NotNamedIs(all, name, k);
      if k < |all| {
        var cr := all[k];
        Withdraw(cr);
        Drop(cr, k);
        cr.open := false;
        closed := closed + {cr};
      }
    }

    /** The last of the names to be closed: of `live` those not in `names` will be left. */
    method CloseLast(ghost live: seq<Request>, ghost names: seq<string>, ghost gone: set<Request>)
      requires Valid() && newcomers == [] && closing != [] && closing <= names
      requires LeftOf(all, live, names[|closing|..]) && closed == gone + Elems(live) - Elems(all)
      modifies this`all, this`closing, this`active, this`multi, this`poll, this`closed, Repr`open
      ensures Valid() && newcomers == [] && closing == old(closing)[..|old(closing)| - 1]
      ensures LeftOf(all, live, names[|closing|..]) && closed == gone + Elems(live) - Elems(all)
    {
      var last := |closing| - 1;
      OneNameMore(all, live, names[last + 1..], closing[last]);
      assert names[last..] == [closing[last]] + names[last + 1..];
      CloseNamed(closing[last]);
      closing := closing[..last];
    }

    /** `check_for_new_requests`: new requests become active, then those to be closed are closed. */
    method CheckNew()
      requires Valid()
      modifies this`all, this`newcomers, this`closing, this`active, this`multi, this`poll, this`closed, Repr`open
      ensures Valid() && newcomers == [] && closing == []
      ensures forall r :: r in all <==> r in old(all) && r.name !in old(closing)
      ensures closed == old(closed) + Elems(old(all)) - Elems(all)
    {
      ghost var live, names, gone := all, closing, closed;
      StartNew();
      while closing != []
        invariant Valid() && newcomers == [] && closing <= names
        invariant LeftOf(all, live, names[|closing|..])
        invariant closed == gone + Elems(live) - Elems(all)
        decreases |closing|
      {
        CloseLast(live, names, gone);
      }
    }

    /** Behind those that are due no later. */
    method PlaceFor(at: int) returns (k: nat)
      ensures k <= |poll| && (forall i :: 0 <= i < k ==> poll[i].at <= at) && (k < |poll| ==> poll[k].at > at)
    {
      k := 0;
      while k < |poll| && poll[k].at <= at
        invariant k <= |poll| && forall i :: 0 <= i < k ==> poll[i].at <= at
      {
        k := k + 1;
      }
    }

    /** Puts a request back in line: `emplace_back` and `sort`. */
    method Enqueue(cr: Request, at: int)
      requires Pending(cr)
      modifies this`poll
      ensures Valid() && multiset(poll) == multiset(old(poll)) + multiset{Poll(at, cr)}
      ensures Waiting(poll) == Waiting(old(poll)) + {cr}
    {
      var k := PlaceFor(at);
      InsertWaiting(poll, k, Poll(at, cr));
      InsertMultiset(poll, k, Poll(at, cr));
      poll := poll[..k] + [Poll(at, cr)] + poll[k..];
    }

    /** `find` over the live requests, for one that is there. */
    method FindRequest(cr: Request) returns (k: nat)
      requires cr in all
      ensures k < |all| && all[k] == cr
    {
      k := 0;
      while all[k] != cr
        invariant k < |all| && cr in all[k..]
        decreases |all| - k
      {
        k := k + 1;
      }
    }

    /** One message of `check_for_finished_requests`. */
    method FinishOne(msg: Message)
      requires Valid()
      modifies this`all, this`active, this`multi, this`poll
      ensures Valid()
      ensures !msg.done || msg.handle !in old(active) ==>
        all == old(all) && active == old(active) && poll == old(poll)
      ensures msg.done && msg.handle in old(active) ==>
        var cr := old(active)[msg.handle];
        && active == old(active) - {msg.handle}
        && (msg.delay < 0 ==> Elems(all) == Elems(old(all)) - {cr} && poll == old(poll))
        && (msg.delay >= 0 ==>
          all == old(all) && multiset(poll) == multiset(old(poll)) + multiset{Poll(msg.now + msg.delay, cr)})
    {
      if !msg.done {
        return;
      }
      multi := multi - {msg.handle};
      if msg.handle in active {
        var cr := active[msg.handle];
        assert cr in Running(active) && cr in Elems(all);
        ValuesRemove(active, msg.handle);
        active := active - {msg.handle};
        if msg.delay < 0 {
          var k := FindRequest(cr);
          WithoutElems(all, k);
          Drop(cr, k);
        } else {
          Enqueue(cr, msg.now + msg.delay);
        }
      }
    }

    /** `check_for_finished_requests`: nothing becomes active, and only active requests go. */
    method CheckFinished(messages: seq<Message>)
      requires Valid()
      modifies this`all, this`active, this`multi, this`poll
      ensures Valid() && forall r :: r in all ==> r in old(all)
      ensures Running(active) <= Running(old(active)) && Elems(all) <= Elems(old(all))
      ensures Elems(old(all)) - Elems(all) <= Running(old(active))
      ensures Waiting(poll) <= Waiting(old(poll)) + Running(old(active))
    {
      for i := 0 to |messages|
        invariant Valid()
        invariant Running(active) <= Running(old(active)) && Elems(all) <= Elems(old(all))
        invariant Elems(old(all)) - Elems(all) <= Running(old(active))
        invariant Waiting(poll) <= Waiting(old(poll)) + Running(old(active))
      {
        ghost var h, a := messages[i].handle, active;
        if h in active {
          ValuesRemove(active, h);
          assert active[h] in Running(active);
        }
        FinishOne(messages[i]);
        assert Elems(all) == Elems(newcomers) + Running(active) + Waiting(poll);
      }
      assert forall r :: r in all ==> r in Elems(all) && r in Elems(old(all));
    }

    /** `loop_body`: `messages` is what libcurl reports in this turn, `now` the time it started. */
    method LoopBody(messages: seq<Message>, now: int)
      requires Valid()
      modifies this`all, this`newcomers, this`closing, this`active, this`multi, this`poll, this`closed, Repr`open
      ensures Valid() && newcomers == [] && closing == []
      ensures old(closed) <= closed && Elems(all) <= Elems(old(all))
      ensures forall r :: r in all ==> r.name !in old(closing)
      ensures forall r :: r in all ==> r in Running(active) || exists p :: p in poll && p.cr == r && p.at > now + 5
      ensures forall r :: r in old(all) && r !in all ==> r in closed || r in Running(old(active))
    {
      CheckFinished(messages);
      ghost var live := Elems(all);
      CheckNew();
      assert forall r :: r in all ==> r in live;
      ghost var n := Requeue(now + 5);
      forall r | r in all ensures r in Running(active) || exists p :: p in poll && p.cr == r && p.at > now + 5 {
        assert r in Elems(all);
      }
    }

    /** `process_all`: until nothing is active, as long as libcurl has something to report. */
    method ProcessAll(reports: seq<seq<Message>>)
      requires Valid()
      modifies this`all, this`newcomers, this`closing, this`active, this`multi, this`poll, this`closed, Repr`open
      ensures Valid() && newcomers == [] && closing == []
      ensures old(closed) <= closed && forall r :: r in all ==> r.name !in old(closing)
    {
      CheckNew();
      ghost var n := Requeue(LONG_MAX);
      for i := 0 to |reports|
        invariant Valid() && newcomers == [] && closing == []
        invariant old(closed) <= closed && forall r :: r in all ==> r.name !in old(closing)
      {
        if active == map[] {
          return;
        }
        ghost var before := all;
        CheckFinished(reports[i]);
        assert forall r :: r in all ==> r in Elems(all) && r in Elems(before);
      }
    }
  }

  /** No request that was closed is live: it is neither new, nor active, nor waiting, and as every
      operation keeps `Valid` and `closed` only grows, it never is again. */
  lemma ClosedStaysAway(l: Looper, r: Request)
    requires l.Valid() && r in l.closed
    ensures r !in l.all && r !in l.newcomers && r !in Running(l.active) && r !in Waiting(l.poll)
  {
    assert r !in Elems(l.all);
  }

  /** Each live request is in exactly one place. */
  lemma ExactlyOnePlace(l: Looper, r: Request)
    requires l.Valid() && r in l.all
    ensures r in l.newcomers ==> r !in Running(l.active) && r !in Waiting(l.poll)
    ensures r in Running(l.active) ==> r !in l.newcomers && r !in Waiting(l.poll)
    ensures r in l.newcomers || r in Running(l.active) || r in Waiting(l.poll)
  {
    assert r in Elems(l.all);
    assert r in l.newcomers <==> r in Elems(l.newcomers);
  }
}
