/** How a refusal reaches a connector: it polls, and installs what it read but for its own certificate. */
module Polling {
  import opened Wrappers
  import opened Membership
  import opened Netip
  import opened Invariant
  import opened Removal
  import opened Reuse
  import opened RouteTable

  /** The list with every occurrence of one entry taken out. */
  function Dropping(list: seq<string>, drop: string): (r: seq<string>)
    ensures forall x :: x in r <==> x in list && x != drop
  {
    if list == [] then []
    else if list[0] == drop then Dropping(list[1..], drop)
    else [list[0]] + Dropping(list[1..], drop)
  }

  /** A connector that could not compute its own fingerprint drops nothing. */
  function Refused(list: seq<string>, self: string): seq<string> {
    if self == "" then list else Dropping(list, self)
  }

  lemma {:induction false} DroppingAbsent(list: seq<string>, drop: string)
    requires drop !in list
    ensures Dropping(list, drop) == list
  {
    if list == [] {
    } else {
      DroppingAbsent(list[1..], drop);
    }
  }

  lemma {:induction false} DroppingAppend(list: seq<string>, x: string, drop: string)
    ensures Dropping(list + [x], drop) == Dropping(list, drop) + (if x == drop then [] else [x])
  {
    if list == [] {
      assert list + [x] == [x];
    } else {
      assert (list + [x])[1..] == list[1..] + [x];
      DroppingAppend(list[1..], x, drop);
    }
  }

  method Except(list: seq<string>, drop: string) returns (out: seq<string>)
    ensures out == Refused(list, drop)
    ensures drop == "" ==> out == list
    ensures drop != "" ==> forall x :: x in out <==> x in list && x != drop
  {
    if drop == "" || drop !in list {
      if drop != "" {
        DroppingAbsent(list, drop);
      }
      return list;
    }
    out := [];
    for i := 0 to |list|
      invariant out == Dropping(list[..i], drop)
    {
      assert list[..i + 1] == list[..i] + [list[i]];
      DroppingAppend(list[..i], list[i], drop);
      if list[i] != drop {
        out := out + [list[i]];
      }
    }
    assert list[..|list|] == list;
  }

  /** What is installed after a poll: what was read, less the own entry, when the reload takes it. */
  function Installed(read: Option<seq<string>>, reloads: bool, self: string, before: seq<string>): seq<string> {
    if read.Some? && (reloads || Refused(read.value, self) == before) then Refused(read.value, self) else before
  }

  class Connector {
    const self: string
    var blocked: seq<string>
    var banned: bool

    constructor (self: string, blocked: seq<string>)
      ensures this.self == self && this.blocked == blocked && !banned
    {
      this.self, this.blocked, banned := self, blocked, false;
    }

    /**
     One tick. Nothing is read when the hub does not answer with a bundle; a list
     that differs is installed only when the reload takes it.
     */
    method Tick(read: Option<seq<string>>, reloads: bool)
      modifies this
      ensures blocked == Installed(read, reloads, self, old(blocked))
      ensures banned == if read.Some? then self != "" && self in read.value else old(banned)
    {
      if read.None? {
        return;
      }
      banned := self != "" && self in read.value;
      var current := Except(read.value, self);
      if current == blocked {
        return;
      }
      if reloads {
        blocked := current;
      }
    }
  }

  // ----- A hub and one connector -----

  datatype World = World(s: State, installed: seq<string>)

  datatype Turn = HubTurn(op: Op) | Poll(lost: bool, reloads: bool)

  /** What the hub answers a poll with: the list as it stands now, to an approved record only. */
  ghost function Answer(s: State, id: string): Option<seq<string>> {
    if id in s.requests && s.requests[id].status.Approved? && s.requests[id].bundle.Some?
    then Some(Blocklist(s)) else None
  }

  ghost function Next(w: World, self: string, id: string, t: Turn): World {
    match t
    case HubTurn(op) => w.(s := Apply(w.s, op))
    case Poll(lost, reloads) =>
      w.(installed := Installed(if lost then None else Answer(w.s, id), reloads, self, w.installed))
  }

  /** A poll that is lost, that the hub does not answer, or that the reload does not take, changes nothing. */
  lemma FailedPollKeeps(w: World, self: string, id: string, lost: bool, reloads: bool)
    requires lost || !reloads || id !in w.s.requests || !w.s.requests[id].status.Approved?
    ensures Next(w, self, id, Poll(lost, reloads)) == w
  {
  }

  /** What the hub does is done to the hub alone, and reaches a connector only through a poll. */
  lemma HubTurnIsTheHubs(w: World, self: string, id: string, op: Op)
    ensures Next(w, self, id, HubTurn(op)) == World(Apply(w.s, op), w.installed)
  {
  }

  ghost function Play(w: World, self: string, id: string, turns: seq<Turn>): World
    decreases |turns|
  {
    if turns == [] then w else Play(Next(w, self, id, turns[0]), self, id, turns[1..])
  }

  /** A poll that is read and applied leaves exactly the current blocklist but for the connector's own entry. */
  lemma PollInstalls(w: World, self: string, id: string)
    requires Answer(w.s, id).Some?
    ensures var v := Next(w, self, id, Poll(false, true));
            && v.installed == Refused(Blocklist(w.s), self)
            && forall c :: c in v.installed <==> c in Blocked(w.s) && !(self != "" && c == self)
  {
    forall c: string
      ensures c in Refused(Blocklist(w.s), self) <==> c in Blocked(w.s) && !(self != "" && c == self)
    {
      BlocklistIsBlocked(w.s, c);
    }
  }


  ghost predicate CertIsBurned(s: State, c: string) {
    c != "" && CertBurned(s.burned, c)
  }

  lemma BurnedStaysBurned(s: State, op: Op, c: string)
    requires CertIsBurned(s, c)
    ensures CertIsBurned(Apply(s, op), c)
  {
    StepKeepsBurned(s, op);
    var i :| 0 <= i < |s.burned| && s.burned[i].cert == c;
    assert Apply(s, op).burned[i].cert == c;
  }

  lemma TurnKeepsRefusal(w: World, self: string, id: string, t: Turn, c: string)
    requires CertIsBurned(w.s, c) && c in w.installed && c != self
    ensures var v := Next(w, self, id, t); CertIsBurned(v.s, c) && c in v.installed
  {
    if t.HubTurn? {
      BurnedStaysBurned(w.s, t.op, c);
    } else {
      BlocklistIsBlocked(w.s, c);
    }
  }

  lemma {:induction false} RefusalStays(w: World, self: string, id: string, turns: seq<Turn>, c: string)
    requires CertIsBurned(w.s, c) && c in w.installed && c != self
    ensures c in Play(w, self, id, turns).installed
    decreases |turns|
  {
    if turns == [] {
    } else {
      TurnKeepsRefusal(w, self, id, turns[0], c);
      RefusalStays(Next(w, self, id, turns[0]), self, id, turns[1..], c);
    }
  }

  /**
   A certificate burned before a poll that is read and applied is refused by that
   connector from then on, over any interleaving of hub steps and polls, lost and
   failed ones included.
   */
  lemma BurnedIsRefusedEverAfter(w: World, self: string, id: string, c: string, later: seq<Turn>)
    requires CertIsBurned(w.s, c) && c != self && Answer(w.s, id).Some?
    ensures c in Play(w, self, id, [Poll(false, true)] + later).installed
  {
    var v := Next(w, self, id, Poll(false, true));
    PollInstalls(w, self, id);
    assert c in Blocked(w.s) by {
      var i :| 0 <= i < |w.s.burned| && w.s.burned[i].cert == c;
      assert w.s.burned[i].cert == c;
    }
    assert ([Poll(false, true)] + later)[1..] == later;
    RefusalStays(v, self, id, later, c);
  }

  lemma SpentIsRefusedEverAfter(w: World, self: string, id: string, c: Issued, later: seq<Turn>)
    requires Spent(w.s, c) && c.cert != "" && c.cert != self && Answer(w.s, id).Some?
    ensures c.cert in Play(w, self, id, [Poll(false, true)] + later).installed
  {
    var i :| 0 <= i < |w.s.burned| && w.s.burned[i] == Burned(c.key, c.cert);
    assert w.s.burned[i].cert == c.cert;
    BurnedIsRefusedEverAfter(w, self, id, c.cert, later);
  }

  /**
   End to end: after a poll that is read and applied, and for ever after it, of two
   certificates issued to other keys for one address the connector refuses at least one.
   */
  lemma ConnectorMeetsOneHolder(h: History, installed: seq<string>, self: string, id: string, f: Family,
                                c: Issued, d: Issued, later: seq<Turn>)
    requires HistoryInv(h) && Answer(h.s, id).Some?
    requires c in h.issued && d in h.issued && c.key != d.key && c.cert != self && d.cert != self
    requires c.addrs.Of(f).Some? && c.addrs.Of(f) == d.addrs.Of(f)
    ensures var w := Play(World(h.s, installed), self, id, [Poll(false, true)] + later);
            c.cert in w.installed || d.cert in w.installed
  {
    OneIsSpent(h, f, c, d);
    if Spent(h.s, c) {
      SpentIsRefusedEverAfter(World(h.s, installed), self, id, c, later);
    } else {
      SpentIsRefusedEverAfter(World(h.s, installed), self, id, d, later);
    }
  }
}
