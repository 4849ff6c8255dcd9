/**
 One instance of the hub: who asked to join, who was admitted, which address each
 key holds, and which credentials are burned. The steps are given as functions of
 the instance's value; the class in Instance.dfy carries them out in place.
 */
module Membership {
  import opened Wrappers
  import opened Netip
  import opened Ipam
  import opened Pools

  /** One thing per address family. */
  datatype Dual<+T> = Dual(v4: T, v6: T) {
    function Of(f: Family): T {
      if f.F4? then v4 else v6
    }
  }

  datatype Status = Pending | Approved | Rejected

  /** An enrollment. The bundle names the certificate its holder can fetch. */
  datatype Record = Record(
    status: Status, key: string, kind: Kind, name: string, addrs: Dual<Option<Addr>>, bundle: Option<string>)

  datatype Event = BanEvent | UnbanEvent

  datatype Member = Member(
    kind: Kind, name: string, addrs: Dual<Option<Addr>>,
    routes: seq<Prefix>, domain: string, cert: string, events: seq<Event>)
  {
    /** The last decision taken about this member was a ban. */
    predicate Banned() {
      events != [] && events[|events| - 1].BanEvent?
    }
  }

  datatype Burned = Burned(key: string, cert: string)

  /** The address side: the overlays, the two reserved addresses in each, and what each key holds. */
  datatype Net = Net(
    overlay: Dual<Option<Prefix>>, lighthouse: Dual<Option<Addr>>, home: Dual<Option<Addr>>,
    alloc: Dual<map<string, Addr>>)

  datatype State = State(
    owner: string, token: bool, net: Net,
    requests: map<string, Record>, members: map<string, Member>, burned: seq<Burned>)

  datatype Applicant = Applicant(kind: Kind, identity: string, authentic: bool)

  datatype Request = Request(valid: bool, key: string, name: string, announces: bool)

  datatype Decision =
    | Approve(certificate: bool, name: string, routes: seq<Prefix>, domain: string, cert: string)
    | Reject
    | Unknown

  datatype Refusal =
    | Invalid | OwnInstance | TenantRoutes | Unauthenticated | KeyRemoved | NoAddress
    | NotFound | NoCertificate | NameTaken | UnknownDecision | AlreadyBanned | NotBanned | IsOwner

  // ----- Creation -----

  /** A fresh instance with its two reserved addresses and its owner as the only member. */
  ghost function Created(owner: string, name: string, token: bool, overlay: Dual<Option<Prefix>>): (s: State) {
    var lighthouse := Dual(FirstFree(overlay.v4, {}), FirstFree(overlay.v6, {}));
    var home := Dual(FirstFree(overlay.v4, Present([lighthouse.v4])), FirstFree(overlay.v6, Present([lighthouse.v6])));
    State(owner, token, Net(overlay, lighthouse, home, Dual(map[], map[])), map[],
          map[owner := Member(Owner, name, home, [], "", "", [])], [])
  }

  ghost function FirstFree(overlay: Option<Prefix>, taken: set<Addr>): Option<Addr> {
    if overlay.Some? then LeastFree(overlay.value, taken) else None
  }

  // ----- Enroll -----

  predicate IsBurned(s: State, key: string) {
    exists i :: 0 <= i < |s.burned| && s.burned[i].key == key
  }

  predicate HasRecord(s: State, id: string, key: string) {
    id in s.requests && s.requests[id].key == key
  }

  /** The addresses an instance keeps for itself: the lighthouse's and the owner's. */
  function Fixed(n: Net, f: Family): set<Addr> {
    Present([n.lighthouse.Of(f), n.home.Of(f)])
  }

  function MemberAddrs(s: State, f: Family): set<Addr> {
    set k | k in s.members && s.members[k].addrs.Of(f).Some? :: s.members[k].addrs.Of(f).value
  }

  ghost function PickFor(s: State, f: Family, key: string, kind: Kind): Option<Addr> {
    if s.net.overlay.Of(f).None? then None
    else Pick(s.net.overlay.Of(f).value, s.net.alloc.Of(f), key, kind, MemberAddrs(s, f) + Fixed(s.net, f))
  }

  function Hold(alloc: map<string, Addr>, key: string, a: Option<Addr>): map<string, Addr> {
    if a.Some? then alloc[key := a.value] else alloc
  }

  /** Why an enrollment is turned away before its record is looked for, if it is. */
  function TurnedAway(s: State, who: Applicant, req: Request): Option<Refusal> {
    if !req.valid then Some(Invalid)
    else if who.kind.Tenant? && who.identity != "" && who.identity == s.owner then Some(OwnInstance)
    else if who.kind.Tenant? && req.announces then Some(TenantRoutes)
    else if who.kind.Connector? && s.token && !who.authentic then Some(Unauthenticated)
    else if IsBurned(s, req.key) then Some(KeyRemoved)
    else None
  }

  /** The same key asking again keeps its record; a rejection is reopened. */
  function Reopened(r: Record, name: string): Record {
    r.(name := name, status := if r.status.Rejected? then Pending else r.status)
  }

  function SetRecord(s: State, id: string, r: Record): State {
    s.(requests := s.requests[id := r])
  }

  function SetMember(s: State, k: string, m: Member): State {
    s.(members := s.members[k := m])
  }

  /** A new record for a key that has none, with whatever addresses could be had. */
  ghost function Admit(s: State, who: Applicant, req: Request, id: string): State {
    var addrs := Dual(PickFor(s, F4, req.key, who.kind), PickFor(s, F6, req.key, who.kind));
    var alloc := Dual(Hold(s.net.alloc.v4, req.key, addrs.v4), Hold(s.net.alloc.v6, req.key, addrs.v6));
    s.(net := s.net.(alloc := alloc),
       requests := s.requests[id := Record(Pending, req.key, who.kind, req.name, addrs, None)])
  }

  ghost function Enroll(s: State, who: Applicant, req: Request, id: string): (State, Result<string, Refusal>) {
    if TurnedAway(s, who, req).Some? then (s, Err(TurnedAway(s, who, req).value))
    else if rid :| HasRecord(s, rid, req.key) then
      (SetRecord(s, rid, Reopened(s.requests[rid], req.name)), Ok(rid))
    else if PickFor(s, F4, req.key, who.kind).None? && PickFor(s, F6, req.key, who.kind).None? then (s, Err(NoAddress))
    else (Admit(s, who, req, id), Ok(id))
  }

  // ----- Decide, Forget -----

  function Without<T>(m: map<string, T>, k: string): map<string, T> {
    map j | j in m && j != k :: m[j]
  }

  function ChosenName(r: Record, d: Decision): string
    requires d.Approve?
  {
    if d.name == "" then r.name else d.name
  }

  predicate NameIsTaken(s: State, key: string, name: string) {
    name != "" && exists k :: k in s.members && k != key && s.members[k].name == name
  }

  /** The bundle and the approval are written first, and stay when the name is refused afterwards. */
  function Decide(s: State, id: string, d: Decision): (State, Option<Refusal>) {
    if id !in s.requests then (s, Some(NotFound))
    else
      var r := s.requests[id];
      match d
      case Unknown => (s, Some(UnknownDecision))
      case Reject => (SetRecord(s, id, r.(status := Rejected, bundle := None)), None)
      case Approve(certificate, _, routes, domain, cert) =>
        if !certificate then (s, Some(NoCertificate))
        else
          var approved := SetRecord(s, id, r.(status := Approved, bundle := Some(cert)));
          var name := ChosenName(r, d);
          if NameIsTaken(s, r.key, name) then (approved, Some(NameTaken))
          else
            (SetMember(approved, r.key, Member(r.kind, name, r.addrs, routes, domain, cert, [])), None)
  }

  function Forget(s: State, id: string): (State, Option<Refusal>) {
    if id !in s.requests then (s, Some(NotFound))
    else (s.(requests := Without(s.requests, id)), None)
  }

  // ----- Ban, Unban, RemoveMember -----

  /** A member can be meant by its name or by the first characters of its key. */
  predicate Means(s: State, ref: string, k: string) {
    k in s.members && (ref <= k || s.members[k].name == ref)
  }

  function Mark(s: State, k: string, e: Event): State
    requires k in s.members
  {
    SetMember(s, k, s.members[k].(events := s.members[k].events + [e]))
  }

  function Ban(s: State, k: string): (State, Option<Refusal>)
    requires k in s.members
  {
    if s.members[k].Banned() then (s, Some(AlreadyBanned)) else (Mark(s, k, BanEvent), None)
  }

  function Unban(s: State, k: string): (State, Option<Refusal>)
    requires k in s.members
  {
    if !s.members[k].Banned() then (s, Some(NotBanned)) else (Mark(s, k, UnbanEvent), None)
  }

  function Erased(s: State, k: string): State
    requires k in s.members
  {
    s.(burned := s.burned + [Burned(k, s.members[k].cert)],
       members := Without(s.members, k),
       net := s.net.(alloc := Dual(Without(s.net.alloc.v4, k), Without(s.net.alloc.v6, k))),
       requests := map i | i in s.requests && s.requests[i].key != k :: s.requests[i])
  }

  function RemoveMember(s: State, k: string): (State, Option<Refusal>)
    requires k in s.members
  {
    if s.members[k].kind.Owner? then (s, Some(IsOwner))
    else if !s.members[k].Banned() then (s, Some(NotBanned))
    else (Erased(s, k), None)
  }

  /** The certificates every member is told to refuse. */
  function Blocked(s: State): set<string> {
    (set k | k in s.members && s.members[k].Banned() && s.members[k].cert != "" :: s.members[k].cert)
    + (set i | 0 <= i < |s.burned| && s.burned[i].cert != "" :: s.burned[i].cert)
  }

  // ----- What holds in every state -----

  ghost predicate OneRecordPerKey(s: State) {
    forall i, j :: i in s.requests && j in s.requests && s.requests[i].key == s.requests[j].key ==> i == j
  }

  /** The lighthouse and the owner have usable addresses of their own, in each family there is. */
  ghost predicate FixedInv(n: Net, f: Family) {
    match n.overlay.Of(f)
    case None => n.lighthouse.Of(f).None? && n.home.Of(f).None?
    case Some(p) =>
      && n.lighthouse.Of(f).Some?
      && n.home.Of(f).Some?
      && n.lighthouse.Of(f) != n.home.Of(f)
      && Fixed(n, f) <= UsableSet(p)
  }

  /** Allocations are usable, distinct from one another and from the fixed addresses. */
  ghost predicate AllocInv(n: Net, f: Family) {
    match n.overlay.Of(f)
    case None => n.alloc.Of(f) == map[]
    case Some(p) => Sound(p, Fixed(n, f), n.alloc.Of(f))
  }

  ghost predicate NetInv(n: Net) {
    FixedInv(n, F4) && FixedInv(n, F6) && AllocInv(n, F4) && AllocInv(n, F6)
  }

  /** An address, if there is one, is the one the key was allocated. */
  predicate Holds(n: Net, f: Family, key: string, a: Option<Addr>) {
    a.Some? ==> key in n.alloc.Of(f) && n.alloc.Of(f)[key] == a.value
  }

  predicate HoldsBoth(n: Net, key: string, addrs: Dual<Option<Addr>>) {
    Holds(n, F4, key, addrs.v4) && Holds(n, F6, key, addrs.v6)
  }

  ghost predicate RecordsHold(s: State) {
    forall i :: i in s.requests ==> HoldsBoth(s.net, s.requests[i].key, s.requests[i].addrs)
  }

  ghost predicate MembersHold(s: State) {
    forall k :: k in s.members ==>
      if k == s.owner then s.members[k].addrs == s.net.home else HoldsBoth(s.net, k, s.members[k].addrs)
  }

  /** The owner's identity is nobody's key, and nobody else is an owner. */
  ghost predicate OwnerApart(s: State) {
    && s.owner in s.members
    && s.members[s.owner].kind.Owner?
    && s.owner !in s.net.alloc.v4
    && s.owner !in s.net.alloc.v6
    && (forall k :: k in s.members && k != s.owner ==> !s.members[k].kind.Owner?)
    && (forall i :: i in s.requests ==> s.requests[i].key != s.owner && !s.requests[i].kind.Owner?)
  }

  ghost predicate NamesDistinct(s: State) {
    forall j, k :: j in s.members && k in s.members && j != k && s.members[j].name != "" ==>
      s.members[j].name != s.members[k].name
  }

  /** A removed key has left nothing behind. */
  ghost predicate Gone(s: State, key: string) {
    && key !in s.members
    && key !in s.net.alloc.v4
    && key !in s.net.alloc.v6
    && forall i :: i in s.requests ==> s.requests[i].key != key
  }

  ghost predicate BurnedGone(s: State) {
    forall i :: 0 <= i < |s.burned| ==> Gone(s, s.burned[i].key)
  }

  /** Everything that does not speak of addresses. */
  ghost predicate Shape(s: State) {
    OneRecordPerKey(s) && OwnerApart(s) && NamesDistinct(s) && BurnedGone(s)
  }

  ghost predicate Inv(s: State) {
    Shape(s) && NetInv(s.net) && RecordsHold(s) && MembersHold(s)
  }
}
