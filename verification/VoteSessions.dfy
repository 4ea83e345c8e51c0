/** Vote sessions of one room (backend/app/services/vote_service.py and the repositories under it):
    what every run of complete operations keeps, and the operations themselves. */
module VoteSessions {
  import opened Wrappers
  import opened Tallies

  datatype Category = Destination | Flight

  type Details = map<string, string>

  /** An item of the linked message: its details, and what it shows of title, text and images. */
  datatype Card = Card(meta: Details, shown: Details)

  /** The linked message: its category, if that is known, and its items by option id. */
  datatype Message = Message(category: Option<Category>, items: map<string, Card>)

  /** `payload` holds what each option carries; `category` is the stored one. */
  datatype Session = Session(
    options: seq<string>, payload: map<string, Details>, linked: Option<Message>, category: Option<Category>,
    open: bool, tiePending: bool, tied: set<string>)

  datatype Selection = Selection(option: string, session: string, data: Details)

  /** `locks` is the history of locked winners; `selections` keeps the last one per category. */
  datatype Room = Room(
    owner: Option<string>, members: set<string>, sessions: map<string, Session>, votes: seq<Vote>,
    selections: map<Category, Selection>, locks: seq<Selection>)

  datatype Operation =
    | Create(id: string, options: seq<string>, payload: map<string, Details>, linked: Option<Message>)
    | Join(newMember: string)
    | Cast(session: string, member: string, option: string)
    | CloseEarly(session: string, member: string)
    | BreakTie(session: string, member: string, option: string)
    | Retire(session: string)

  datatype Refusal =
    NotFound | InvalidOption | Closed | TieHeld | UnknownMember | NotOwner | NotTied | NotATiedOption | Unresolvable

  /** Why an operation is turned away before it writes anything. */
  function Refused(r: Room, op: Operation): Option<Refusal> {
    match op
    case Create(_, _, _, _) => None
    case Join(_) => None
    case Cast(s, m, o) =>
      if s !in r.sessions then Some(NotFound)
      else if o !in r.sessions[s].options then Some(InvalidOption)
      else if !r.sessions[s].open then Some(Closed)
      else if r.sessions[s].tiePending then Some(TieHeld)
      else if m !in r.members then Some(UnknownMember)
      else None
    case CloseEarly(s, m) =>
      if s !in r.sessions then Some(NotFound)
      else if !r.sessions[s].open then Some(Closed)
      else if r.sessions[s].tiePending then Some(TieHeld)
      else if r.owner != Some(m) then Some(NotOwner)
      else None
    case BreakTie(s, m, o) =>
      if s !in r.sessions then Some(NotFound)
      else if !r.sessions[s].open then Some(Closed)
      else if !r.sessions[s].tiePending then Some(NotTied)
      else if r.owner != Some(m) then Some(NotOwner)
      else if o !in r.sessions[s].tied then Some(NotATiedOption)
      else None
    case Retire(s) =>
      if s !in r.sessions then Some(NotFound)
      else if !r.sessions[s].open then Some(Closed)
      // A closed session must not hold a tie: the table refuses such a row.
      else if r.sessions[s].tiePending then Some(TieHeld)
      else None
  }

  // ----- What each operation means

  /** The options with the most eligible votes. */
  ghost function Leaders(r: Room, s: string): set<string> {
    set v | v in r.votes && v.session == s && v.member in r.members && Leads(r.votes, s, r.members, v.option)
      :: v.option
  }

  function CategoryOf(session: Session): Option<Category> {
    if session.linked.Some? && session.linked.value.category.Some? then session.linked.value.category
    else session.category
  }

  /** The winning option with its item's details: the item's own fields win over its details, and
      the option's fields win over both. */
  function SelectionData(session: Session, o: string): Details {
    var option := if o in session.payload then session.payload[o] else map[];
    if session.linked.None? || o !in session.linked.value.items then option
    else session.linked.value.items[o].meta + session.linked.value.items[o].shown + option
  }

  /** Nothing the option carries is lost or overridden, and nothing comes from anywhere else. */
  lemma SelectionKeepsTheOption(session: Session, o: string, key: string)
    requires o in session.payload
    ensures key in session.payload[o] ==>
      key in SelectionData(session, o) && SelectionData(session, o)[key] == session.payload[o][key]
    ensures key in SelectionData(session, o) && key !in session.payload[o] ==>
      && session.linked.Some? && o in session.linked.value.items
      && var card := session.linked.value.items[o];
         SelectionData(session, o)[key] == if key in card.shown then card.shown[key] else card.meta[key]
  {
  }

  /** A resolution has a winner or a tie to report. */
  ghost predicate CanResolve(r: Room, s: string)
    requires s in r.sessions
  {
    && CategoryOf(r.sessions[s]).Some? && Leaders(r, s) != {}
    && forall o :: o in Leaders(r, s) ==> o in r.sessions[s].options
  }

  function Locked(r: Room, s: string, c: Category, o: string): Room
    requires s in r.sessions
  {
    var selection := Selection(o, s, SelectionData(r.sessions[s], o));
    r.(selections := r.selections[c := selection],
       sessions := r.sessions[s := r.sessions[s].(open := false)],
       locks := r.locks + [selection])
  }

  /** One leader is locked; several are held as a tie. */
  ghost function Resolution(r: Room, s: string): Room
    requires s in r.sessions
  {
    if !CanResolve(r, s) then r
    else
      var leaders, c := Leaders(r, s), CategoryOf(r.sessions[s]).value;
      var leader :| leader in leaders;
      if leaders == {leader} then Locked(r, s, c, leader)
      else r.(sessions := r.sessions[s := r.sessions[s].(tiePending := true, tied := leaders, category := Some(c))])
  }

  /** Everyone has voted. */
  predicate AllVoted(r: Room, s: string) {
    Voters(r.votes, s, r.members) == r.members
  }

  function Voted(r: Room, v: Vote): Room {
    r.(votes := Upsert(r.votes, v))
  }

  function Untied(r: Room, s: string): Room
    requires s in r.sessions
  {
    r.(sessions := r.sessions[s := r.sessions[s].(tiePending := false)])
  }

  ghost function Next(r: Room, op: Operation): Room {
    if Refused(r, op).Some? then r
    else
      match op
      case Create(id, options, payload, linked) =>
        if id in r.sessions then r
        else r.(sessions := r.sessions[id := Session(options, payload, linked, None, true, false, {})])
      case Join(m) => r.(members := r.members + {m})
      case Cast(s, m, o) =>
        var now := Voted(r, Vote(s, m, o));
        if AllVoted(now, s) then Resolution(now, s) else now
      case CloseEarly(s, _) => Resolution(r, s)
      case BreakTie(s, _, o) =>
        var session := r.sessions[s];
        var c := if session.category.Some? then session.category else CategoryOf(session);
        if c.None? || o !in session.options then r else Locked(Untied(r, s), s, c.value, o)
      case Retire(s) => r.(sessions := r.sessions[s := r.sessions[s].(open := false)])
  }

  ghost function Exec(r: Room, ops: seq<Operation>): Room {
    if ops == [] then r else Next(Exec(r, ops[..|ops| - 1]), ops[|ops| - 1])
  }

  /** A new room: its owner, no sessions. */
  function Start(owner: string): Room {
    Room(Some(owner), {owner}, map[], [], map[], [])
  }

  // ----- What every reachable room satisfies

  ghost predicate VotesBelong(r: Room) {
    && OneVoteEach(r.votes)
    && forall v :: v in r.votes ==>
         v.session in r.sessions && v.member in r.members && v.option in r.sessions[v.session].options
  }

  /** A locked option is one of its session's and kept with its details, that session is closed,
      and no option has more votes. */
  ghost predicate LockHolds(r: Room, l: Selection) {
    && l.session in r.sessions && !r.sessions[l.session].open
    && l.option in r.sessions[l.session].options && l.data == SelectionData(r.sessions[l.session], l.option)
    && Leads(r.votes, l.session, r.members, l.option)
  }

  /** A held tie is on an open session, and each tied option has the most votes. */
  ghost predicate TieHolds(r: Room, s: string)
    requires s in r.sessions
  {
    var session := r.sessions[s];
    session.tiePending ==>
      && session.open && session.category.Some? && session.category == CategoryOf(session)
      && forall o :: o in session.tied ==> o in session.options && Leads(r.votes, s, r.members, o)
  }

  ghost predicate Inv(r: Room) {
    && VotesBelong(r)
    && (forall k :: 0 <= k < |r.locks| ==> LockHolds(r, r.locks[k]))
    && (forall s :: s in r.sessions ==> TieHolds(r, s))
    && (forall i, j :: 0 <= i < j < |r.locks| ==> r.locks[i].session != r.locks[j].session)
    && forall c :: c in r.selections ==> r.selections[c] in r.locks
  }

  /** The eligible votes of a session are the same ones. */
  ghost predicate SameVotes(r: Room, n: Room, s: string) {
    forall v: Vote :: v.session == s ==>
      (v in r.votes && v.member in r.members <==> v in n.votes && v.member in n.members)
  }

  lemma SameVotesSameLeaders(r: Room, n: Room, s: string, o: string)
    requires SameVotes(r, n, s)
    ensures Leads(r.votes, s, r.members, o) <==> Leads(n.votes, s, n.members, o)
  {
    forall p ensures Count(r.votes, s, r.members, p) == Count(n.votes, s, n.members, p) {
      assert Supporters(r.votes, s, r.members, p) == Supporters(n.votes, s, n.members, p);
    }
    assert Leads(r.votes, s, r.members, o) ==>
      forall p :: Count(n.votes, s, n.members, p) <= Count(n.votes, s, n.members, o);
  }

  /** Locks and ties carry over when their sessions and votes do. */
  lemma CarryOver(r: Room, n: Room, touched: set<string>)
    requires Inv(r) && n.locks == r.locks && n.selections == r.selections
    requires forall s :: s in r.sessions && s !in touched ==>
      s in n.sessions && n.sessions[s] == r.sessions[s] && SameVotes(r, n, s)
    requires forall s :: s in touched && s in r.sessions ==> r.sessions[s].open
    requires forall s :: s in n.sessions && (s in touched || s !in r.sessions) ==> TieHolds(n, s)
    requires VotesBelong(n)
    ensures Inv(n)
  {
    forall k | 0 <= k < |n.locks|
      ensures LockHolds(n, n.locks[k])
    {
      var l := r.locks[k];
      assert LockHolds(r, l);
      SameVotesSameLeaders(r, n, l.session, l.option);
    }
    forall s | s in n.sessions && s in r.sessions && s !in touched
      ensures TieHolds(n, s)
    {
      assert TieHolds(r, s);
      forall o | o in r.sessions[s].tied ensures r.sessions[s].tiePending ==> Leads(n.votes, s, n.members, o) {
        SameVotesSameLeaders(r, n, s, o);
      }
    }
  }

  lemma LockingKeepsInv(r: Room, s: string, c: Category, o: string)
    requires Inv(r) && s in r.sessions && r.sessions[s].open && !r.sessions[s].tiePending
    requires o in r.sessions[s].options && Leads(r.votes, s, r.members, o)
    ensures Inv(Locked(r, s, c, o))
  {
  }

  lemma UntyingKeepsInv(r: Room, s: string)
    requires Inv(r) && s in r.sessions && r.sessions[s].open
    ensures Inv(Untied(r, s))
  {
  }

  lemma ResolutionKeepsInv(r: Room, s: string)
    requires Inv(r) && s in r.sessions && r.sessions[s].open && !r.sessions[s].tiePending
    ensures Inv(Resolution(r, s))
  {
    var n := Resolution(r, s);
    if n != r {
      var c := CategoryOf(r.sessions[s]).value;
      if n.locks != r.locks {
        var o :| o in Leaders(r, s) && n == Locked(r, s, c, o);
        LockingKeepsInv(r, s, c, o);
      } else {
        assert n.sessions[s].tied == Leaders(r, s);
        CarryOver(r, n, {s});
      }
    }
  }

  lemma VotingKeepsInv(r: Room, v: Vote)
    requires Inv(r) && Refused(r, Cast(v.session, v.member, v.option)).None?
    ensures Inv(Voted(r, v))
  {
    var n := Voted(r, v);
    UpsertReplaces(r.votes, v);
    CarryOver(r, n, {v.session});
  }

  lemma BreakingATieKeepsInv(r: Room, s: string, m: string, o: string)
    requires Inv(r)
    ensures Inv(Next(r, BreakTie(s, m, o)))
  {
    if Refused(r, BreakTie(s, m, o)).None? {
      assert TieHolds(r, s);
      UntyingKeepsInv(r, s);
      LockingKeepsInv(Untied(r, s), s, r.sessions[s].category.value, o);
    }
  }

  lemma NextKeepsInv(r: Room, op: Operation)
    requires Inv(r)
    ensures Inv(Next(r, op))
  {
    match op
    case Create(_, _, _, _) => CarryOver(r, Next(r, op), {});
    case Join(m) => CarryOver(r, Next(r, op), {});
    case Cast(s, m, o) =>
      if Refused(r, op).None? {
        VotingKeepsInv(r, Vote(s, m, o));
        ResolutionKeepsInv(Voted(r, Vote(s, m, o)), s);
      }
    case CloseEarly(s, _) =>
      if Refused(r, op).None? { ResolutionKeepsInv(r, s); }
    case BreakTie(s, m, o) => BreakingATieKeepsInv(r, s, m, o);
    case Retire(s) =>
      if Refused(r, op).None? { CarryOver(r, Next(r, op), {s}); }
  }

  lemma {:induction false} ExecKeepsInv(r: Room, ops: seq<Operation>)
    requires Inv(r)
    ensures Inv(Exec(r, ops))
  {
    if ops != [] {
      ExecKeepsInv(r, ops[..|ops| - 1]);
      NextKeepsInv(Exec(r, ops[..|ops| - 1]), ops[|ops| - 1]);
    }
  }

  // ----- Over whole runs

  /** The session's row and its votes. */
  ghost predicate Frozen(r: Room, n: Room, s: string) {
    && s in r.sessions && s in n.sessions && n.sessions[s] == r.sessions[s]
    && forall v: Vote :: v.session == s ==> (v in n.votes <==> v in r.votes)
  }

  lemma ClosedStays(r: Room, op: Operation, s: string)
    requires Inv(r) && s in r.sessions && !r.sessions[s].open
    ensures Frozen(r, Next(r, op), s)
  {
    if op.Cast? && Refused(r, op).None? {
      UpsertReplaces(r.votes, Vote(op.session, op.member, op.option));
    }
  }

  /** A closed session never changes again: it takes no vote, and it never reopens. */
  lemma {:induction false} ClosedSessionIsFrozen(r: Room, ops: seq<Operation>, s: string)
    requires Inv(r) && s in r.sessions && !r.sessions[s].open
    ensures Frozen(r, Exec(r, ops), s)
  {
    if ops != [] {
      ClosedSessionIsFrozen(r, ops[..|ops| - 1], s);
      ExecKeepsInv(r, ops[..|ops| - 1]);
      ClosedStays(Exec(r, ops[..|ops| - 1]), ops[|ops| - 1], s);
    }
  }

  /** Whatever was ever locked won its vote: it is one of the options, its session locked nothing
      else, and in the votes as they stand no option has more. */
  lemma LockedOptionsWon(owner: string, ops: seq<Operation>, k: nat)
    requires k < |Exec(Start(owner), ops).locks|
    ensures
      var r, l := Exec(Start(owner), ops), Exec(Start(owner), ops).locks[k];
      LockHolds(r, l) && forall j :: 0 <= j < |r.locks| && j != k ==> r.locks[j].session != l.session
  {
    ExecKeepsInv(Start(owner), ops);
    var r := Exec(Start(owner), ops);
    assert LockHolds(r, r.locks[k]);
    forall j | 0 <= j < |r.locks| && j != k
      ensures r.locks[j].session != r.locks[k].session
    {
      if j < k { assert r.locks[j].session != r.locks[k].session; }
    }
  }

  /** A lock is never taken back. */
  lemma {:induction false} LocksOnlyGrow(r: Room, ops: seq<Operation>)
    ensures r.locks <= Exec(r, ops).locks
  {
    if ops != [] { LocksOnlyGrow(r, ops[..|ops| - 1]); }
  }

  /** Once everyone in the room has voted, the vote is decided or held as a tie, provided its
      category is known. */
  lemma FullVoteIsSettled(r: Room, s: string, m: string, o: string)
    requires Inv(r) && Refused(r, Cast(s, m, o)).None?
    requires AllVoted(Voted(r, Vote(s, m, o)), s)
    ensures
      var n := Next(r, Cast(s, m, o));
      CategoryOf(r.sessions[s]).Some? <==> !n.sessions[s].open || n.sessions[s].tiePending
  {
    var now := Voted(r, Vote(s, m, o));
    VotingKeepsInv(r, Vote(s, m, o));
    var top := SomeLeader(now, s, m, o);
    forall p | p in Leaders(now, s) ensures p in now.sessions[s].options {
      var v :| v in now.votes && v.session == s && v.option == p;
    }
  }

  /** Everyone has voted exactly if the counts of the options add up to the number of members. */
  lemma EveryoneVotedExactlyWhenTallyIsFull(r: Room, s: string, options: seq<string>)
    requires Inv(r) && (forall v :: v in r.votes && v.session == s ==> v.option in options)
    requires forall i, j :: 0 <= i < j < |options| ==> options[i] != options[j]
    ensures AllVoted(r, s) <==> Total(r.votes, s, r.members, options) == |r.members|
  {
    TallyAddsUp(r.votes, s, r.members, options);
    if |Voters(r.votes, s, r.members)| == |r.members| { SameSizeSubset(Voters(r.votes, s, r.members), r.members); }
  }

  /** A vote that somebody took part in has a leader. */
  lemma SomeLeader(r: Room, s: string, m: string, o: string) returns (top: string)
    requires Inv(r) && m in Voters(r.votes, s, r.members)
    ensures top in Leaders(r, s)
  {
    var tally := TallyOf(r.votes, s, r.members);
    TallyEmptyWithoutVoters(tally, r.votes, s, r.members);
    top := TopOf(tally, tally.Keys);
    TopsLead(tally, r.votes, s, r.members, top);
    assert Count(r.votes, s, r.members, top) > 0;
    var who :| who in Supporters(r.votes, s, r.members, top);
  }

  ghost function TallyOf(votes: seq<Vote>, s: string, eligible: set<string>): (tally: map<string, nat>)
    ensures IsTally(tally, votes, s, eligible)
  {
    var voted := set v | v in votes && v.session == s && v.member in eligible :: v.option;
    assert forall v :: v in votes && v.session == s && v.member in eligible ==>
      v.member in Supporters(votes, s, eligible, v.option);
    assert forall o :: Count(votes, s, eligible, o) > 0 ==> exists m :: m in Supporters(votes, s, eligible, o);
    map o | o in voted :: Count(votes, s, eligible, o)
  }

  lemma {:induction false} TopOf(tally: map<string, nat>, among: set<string>) returns (top: string)
    requires among <= tally.Keys && among != {}
    ensures top in among && forall o :: o in among ==> tally[o] <= tally[top]
    decreases among
  {
    top :| top in among;
    if among != {top} {
      var rest := TopOf(tally, among - {top});
      if tally[rest] > tally[top] { top := rest; }
    }
  }

  // ----- What is selected, and by whom

  /** The operation closes the session with a winner. */
  ghost predicate Decides(r: Room, op: Operation, s: string) {
    && s in r.sessions && r.sessions[s].open && op != Retire(s)
    && s in Next(r, op).sessions && !Next(r, op).sessions[s].open
  }

  /** The selection of category `c` is now a leading option of session `s`, with its data; the other
      categories have what they had. */
  ghost predicate Selects(r: Room, n: Room, s: string, c: Category)
    requires s in r.sessions
  {
    && c in n.selections
    && var l := n.selections[c];
       && l.session == s && l.option in r.sessions[s].options && l.data == SelectionData(r.sessions[s], l.option)
       && Leads(n.votes, s, n.members, l.option)
       && n.locks == r.locks + [l] && n.selections == r.selections[c := l]
  }

  lemma LockingSelects(r: Room, s: string, c: Category, o: string)
    requires s in r.sessions && o in r.sessions[s].options && Leads(r.votes, s, r.members, o)
    ensures Selects(r, Locked(r, s, c, o), s, c) && Locked(r, s, c, o).selections[c].option == o
  {
    assert Locked(r, s, c, o).selections[c] == Selection(o, s, SelectionData(r.sessions[s], o));
  }

  lemma ResolutionSelects(r: Room, s: string)
    requires s in r.sessions && r.sessions[s].open && !Resolution(r, s).sessions[s].open
    ensures
      var c, n := CategoryOf(r.sessions[s]), Resolution(r, s);
      c.Some? && Selects(r, n, s, c.value) && Leaders(n, s) == {n.selections[c.value].option}
  {
    var c := CategoryOf(r.sessions[s]).value;
    var o :| o in Leaders(r, s) && Leaders(r, s) == {o} && Resolution(r, s) == Locked(r, s, c, o);
    LockingSelects(r, s, c, o);
    assert Leaders(Locked(r, s, c, o), s) == Leaders(r, s);
  }

  /** Whatever closes a session, except retiring it, selects a leading option of it for its category:
      the only leader, or the one the owner picked from a tie. */
  lemma ClosingSelectsTheWinner(r: Room, op: Operation, s: string)
    requires Inv(r) && Decides(r, op, s)
    ensures
      var c, n := CategoryOf(r.sessions[s]), Next(r, op);
      && c.Some? && Selects(r, n, s, c.value)
      && var o := n.selections[c.value].option;
         if op.BreakTie? then o == op.option && o in r.sessions[s].tied else Leaders(n, s) == {o}
  {
    match op
    case Cast(t, m, o) =>
      ResolutionSelects(Voted(r, Vote(t, m, o)), s);
    case CloseEarly(_, _) => ResolutionSelects(r, s);
    case BreakTie(_, _, o) =>
      assert TieHolds(r, s);
      LockingSelects(Untied(r, s), s, CategoryOf(r.sessions[s]).value, o);
    case _ =>
  }

  lemma OnlyClosingSelects(r: Room, op: Operation)
    requires Inv(r) && Next(r, op).selections != r.selections
    ensures exists s :: Decides(r, op, s)
  {
    assert op.Cast? || op.CloseEarly? || op.BreakTie?;
    assert Decides(r, op, op.session);
  }

  /** Operation `k` of the run closes session `s`, of category `c`, with a winner. */
  ghost predicate DecidedAt(owner: string, ops: seq<Operation>, k: int, s: string, c: Category) {
    && 0 <= k < |ops|
    && var r := Exec(Start(owner), ops[..k]);
       Decides(r, ops[k], s) && CategoryOf(r.sessions[s]) == Some(c)
  }

  /** The last session of category `c` to be closed with a winner was `s`. */
  ghost predicate LastDecided(owner: string, ops: seq<Operation>, s: string, c: Category) {
    exists k :: && DecidedAt(owner, ops, k, s, c)
                && forall j, t :: k < j < |ops| ==> !DecidedAt(owner, ops, j, t, c)
  }

  ghost predicate EverDecided(owner: string, ops: seq<Operation>, c: Category) {
    exists k, s :: DecidedAt(owner, ops, k, s, c)
  }

  ghost predicate DecidesFor(r: Room, op: Operation, s: string, c: Category) {
    Decides(r, op, s) && CategoryOf(r.sessions[s]) == Some(c)
  }

  lemma DecidedOneMore(owner: string, front: seq<Operation>, op: Operation, c: Category)
    ensures
      var r := Exec(Start(owner), front);
      forall k, s :: DecidedAt(owner, front + [op], k, s, c) <==>
        if k == |front| then DecidesFor(r, op, s, c) else DecidedAt(owner, front, k, s, c)
  {
    forall k, s | 0 <= k <= |front|
      ensures DecidedAt(owner, front + [op], k, s, c) <==>
        if k == |front| then DecidesFor(Exec(Start(owner), front), op, s, c) else DecidedAt(owner, front, k, s, c)
    {
      assert (front + [op])[..k] == front[..k];
      assert front[..|front|] == front;
    }
  }

  lemma DecidedNow(owner: string, front: seq<Operation>, op: Operation, s: string, c: Category)
    requires DecidesFor(Exec(Start(owner), front), op, s, c)
    ensures LastDecided(owner, front + [op], s, c) && EverDecided(owner, front + [op], c)
  {
    DecidedOneMore(owner, front, op, c);
    assert DecidedAt(owner, front + [op], |front|, s, c);
  }

  lemma NotDecidedNow(owner: string, front: seq<Operation>, op: Operation, c: Category)
    requires forall t :: !DecidesFor(Exec(Start(owner), front), op, t, c)
    ensures forall k, s :: DecidedAt(owner, front + [op], k, s, c) <==> DecidedAt(owner, front, k, s, c)
  {
    DecidedOneMore(owner, front, op, c);
  }

  lemma EverDecidedStays(owner: string, front: seq<Operation>, op: Operation, c: Category)
    requires forall t :: !DecidesFor(Exec(Start(owner), front), op, t, c)
    ensures EverDecided(owner, front + [op], c) <==> EverDecided(owner, front, c)
  {
    NotDecidedNow(owner, front, op, c);
    if k, s :| DecidedAt(owner, front, k, s, c) { assert DecidedAt(owner, front + [op], k, s, c); }
  }

  lemma LastDecidedStays(owner: string, front: seq<Operation>, op: Operation, s: string, c: Category)
    requires forall t :: !DecidesFor(Exec(Start(owner), front), op, t, c)
    requires LastDecided(owner, front, s, c)
    ensures LastDecided(owner, front + [op], s, c)
  {
    NotDecidedNow(owner, front, op, c);
    var k :| && DecidedAt(owner, front, k, s, c)
             && forall j, t :: k < j < |front| ==> !DecidedAt(owner, front, j, t, c);
    assert DecidedAt(owner, front + [op], k, s, c);
  }

  lemma OnlyItsSession(r: Room, op: Operation, s: string)
    requires Decides(r, op, s)
    ensures op.Cast? || op.CloseEarly? || op.BreakTie?
    ensures s == op.session
  {
  }

  /** A category's selection is another one exactly if a session of that category was closed with a
      winner, and then it is of that session. */
  lemma SelectionChangesExactlyWhen(r: Room, op: Operation, c: Category)
    requires Inv(r)
    ensures
      var before, now := r.selections, Next(r, op).selections;
      && (forall s :: DecidesFor(r, op, s, c) ==> c in now && now[c].session == s)
      && ((forall s :: !DecidesFor(r, op, s, c)) ==>
            (c in now <==> c in before) && (c in before ==> now[c] == before[c]))
  {
    forall s | Decides(r, op, s)
      ensures s == op.session && CategoryOf(r.sessions[s]).Some?
      ensures Selects(r, Next(r, op), s, CategoryOf(r.sessions[s]).value)
    {
      OnlyItsSession(r, op, s);
      ClosingSelectsTheWinner(r, op, s);
    }
    if Next(r, op).selections != r.selections {
      OnlyClosingSelects(r, op);
      var s :| Decides(r, op, s);
      assert Selects(r, Next(r, op), s, CategoryOf(r.sessions[s]).value);
      assert DecidesFor(r, op, s, CategoryOf(r.sessions[s]).value);
    }
  }

  /** Over every run, a category has a selection exactly if a session of it was closed with a winner;
      it is an option of the last such session, and no option of that session has more votes. */
  lemma {:induction false} SelectionIsTheLastWinner(owner: string, ops: seq<Operation>, c: Category)
    ensures
      var r := Exec(Start(owner), ops);
      && (c in r.selections <==> EverDecided(owner, ops, c))
      && (c in r.selections ==> LastDecided(owner, ops, r.selections[c].session, c) && LockHolds(r, r.selections[c]))
  {
    ExecKeepsInv(Start(owner), ops);
    SelectionIsLastDecided(owner, ops, c);
  }

  lemma {:induction false} SelectionIsLastDecided(owner: string, ops: seq<Operation>, c: Category)
    ensures
      var selections := Exec(Start(owner), ops).selections;
      && (c in selections <==> EverDecided(owner, ops, c))
      && (c in selections ==> LastDecided(owner, ops, selections[c].session, c))
  {
    if ops != [] {
      var front, op := ops[..|ops| - 1], ops[|ops| - 1];
      var r := Exec(Start(owner), front);
      SelectionIsLastDecided(owner, front, c);
      ExecKeepsInv(Start(owner), front);
      SelectionChangesExactlyWhen(r, op, c);
      assert ops == front + [op];
      if s :| DecidesFor(r, op, s, c) {
        var t := Next(r, op).selections[c].session;
        DecidedNow(owner, front, op, t, c);
      } else {
        EverDecidedStays(owner, front, op, c);
        if c in r.selections { LastDecidedStays(owner, front, op, r.selections[c].session, c); }
      }
    }
  }

  /** A vote is ended before everyone has voted, and a tie is broken, by nobody but the owner, unless
      the session is retired. */
  lemma OnlyTheOwnerEndsAVoteEarly(r: Room, op: Operation, s: string)
    requires Inv(r) && s in r.sessions && r.sessions[s].open
    ensures
      var n := Next(r, op);
      && s in n.sessions && n.owner == r.owner
      && (n.sessions[s] != r.sessions[s] && (r.sessions[s].tiePending || !AllVoted(n, s)) ==>
            op == Retire(s) || (op.session == s && !op.Cast? && r.owner == Some(op.member)))
  {
  }

  /** Over every run the members are the owner and whoever joined. */
  lemma {:induction false} MembersAreThoseWhoJoined(owner: string, ops: seq<Operation>, m: string)
    ensures m in Exec(Start(owner), ops).members <==> m == owner || Join(m) in ops
  {
    if ops != [] {
      var front, op := ops[..|ops| - 1], ops[|ops| - 1];
      MembersAreThoseWhoJoined(owner, front, m);
      assert ops == front + [op];
    }
  }

  /** Retiring closes an open session that holds no tie, and does nothing else. */
  lemma RetiringOnlyCloses(r: Room, s: string)
    ensures
      var n := Next(r, Retire(s));
      if s in r.sessions && r.sessions[s].open && !r.sessions[s].tiePending then
        && s in n.sessions && !n.sessions[s].open
        && n == r.(sessions := n.sessions) && n.sessions == r.sessions[s := r.sessions[s].(open := false)]
      else n == r
  {
  }

  /** Votes change only when a member of the room casts one, for an option of a session that is open
      and holds no tie; then exactly that vote is stored. */
  lemma OnlyCastsChangeVotes(r: Room, op: Operation)
    requires Inv(r) && Next(r, op).votes != r.votes
    ensures op.Cast? && op.member in r.members && op.session in r.sessions
    ensures op.option in r.sessions[op.session].options
    ensures r.sessions[op.session].open && !r.sessions[op.session].tiePending
    ensures
      var v, n := Vote(op.session, op.member, op.option), Next(r, op);
      v in n.votes && forall x :: x in n.votes && !SameVoter(x, v) <==> x in r.votes && !SameVoter(x, v)
  {
    UpsertReplaces(r.votes, Vote(op.session, op.member, op.option));
  }

  // ----- The operations

  class VoteService {
    var owner: Option<string>
    var members: set<string>
    var sessions: map<string, Session>
    var votes: seq<Vote>
    var selections: map<Category, Selection>
    ghost var locks: seq<Selection>

    ghost function State(): Room
      reads this
    {
      Room(owner, members, sessions, votes, selections, locks)
    }

    constructor (owner: string)
      ensures State() == Start(owner) && Inv(State())
    {
      this.owner, members, sessions, votes := Some(owner), {owner}, map[], [];
      selections, locks := map[], [];
    }

    method UpsertVote(v: Vote)
      modifies this`votes
      ensures State() == Voted(old(State()), v)
    {
      votes := Upsert(votes, v);
    }

    method CloseRow(s: string)
      requires s in sessions && !sessions[s].tiePending
      modifies this`sessions
      ensures sessions == old(sessions)[s := old(sessions)[s].(open := false)]
    {
      sessions := sessions[s := sessions[s].(open := false)];
    }

    method LockWinner(s: string, c: Category, winner: string)
      requires s in sessions && !sessions[s].tiePending
      modifies this`selections, this`sessions, this`locks
      ensures State() == Locked(old(State()), s, c, winner)
    {
      var selection := Selection(winner, s, SelectionData(sessions[s], winner));
      selections := selections[c := selection];
      locks := locks + [selection];
      CloseRow(s);
    }

    /** Tallies the eligible votes, then locks the winner or holds the tie. */
    method ResolveVoteSession(s: string) returns (refusal: Option<Refusal>)
      requires Inv(State()) && s in sessions && sessions[s].open && !sessions[s].tiePending
      modifies this`selections, this`sessions, this`locks
      ensures State() == Resolution(old(State()), s)
      ensures refusal == if CanResolve(old(State()), s) then None else Some(Unresolvable)
    {
      var category := CategoryOf(sessions[s]);
      if category.None? {
        return Some(Unresolvable);
      }
      var counts := CountByOption(votes, s, members);
      var pick := PickWinner(counts, sessions[s].options);
      LeadersAreTops(State(), s, counts);
      if pick.None? {
        return Some(Unresolvable);
      }
      assert pick.value.winner in Leaders(State(), s);
      if pick.value.tied.Some? {
        assert pick.value.tied.value == Leaders(State(), s);
        assert exists o :: o in Leaders(State(), s) && o != pick.value.winner;
        var tied := pick.value.tied.value;
        sessions := sessions[s := sessions[s].(tiePending := true, tied := tied, category := category)];
      } else {
        assert Leaders(State(), s) == {pick.value.winner};
        LockWinner(s, category.value, pick.value.winner);
      }
      return None;
    }

    /** Records a vote; when everyone in the room has voted, resolves the session. */
    method CastVote(s: string, m: string, o: string) returns (refusal: Option<Refusal>)
      requires Inv(State())
      modifies this`votes, this`selections, this`sessions, this`locks
      ensures State() == Next(old(State()), Cast(s, m, o)) && Inv(State())
      ensures Refused(old(State()), Cast(s, m, o)).Some? ==> refusal == Refused(old(State()), Cast(s, m, o))
      ensures Refused(old(State()), Cast(s, m, o)).None? ==>
        var now := Voted(old(State()), Vote(s, m, o));
        refusal == if AllVoted(now, s) && !CanResolve(now, s) then Some(Unresolvable) else None
    {
      NextKeepsInv(State(), Cast(s, m, o));
      if s !in sessions { return Some(NotFound); }
      if o !in sessions[s].options { return Some(InvalidOption); }
      if !sessions[s].open { return Some(Closed); }
      if sessions[s].tiePending { return Some(TieHeld); }
      if m !in members { return Some(UnknownMember); }
      VotingKeepsInv(State(), Vote(s, m, o));
      UpsertVote(Vote(s, m, o));
      var voterCount := CountDistinctVoters(votes, s, members);
      if members != {} && voterCount == |members| {
        refusal := ResolveVoteSession(s);
      } else {
        return None;
      }
    }

    /** The owner closes the vote early. */
    method CloseSession(s: string, m: string) returns (refusal: Option<Refusal>)
      requires Inv(State())
      modifies this`selections, this`sessions, this`locks
      ensures State() == Next(old(State()), CloseEarly(s, m)) && Inv(State())
      ensures refusal == if Refused(old(State()), CloseEarly(s, m)).Some? then Refused(old(State()), CloseEarly(s, m))
                         else if CanResolve(old(State()), s) then None else Some(Unresolvable)
    {
      NextKeepsInv(State(), CloseEarly(s, m));
      if s !in sessions { return Some(NotFound); }
      if !sessions[s].open { return Some(Closed); }
      if sessions[s].tiePending { return Some(TieHeld); }
      if owner != Some(m) { return Some(NotOwner); }
      refusal := ResolveVoteSession(s);
    }

    /** The owner picks one of the tied options. */
    method PickFromTie(s: string, m: string, o: string) returns (refusal: Option<Refusal>)
      requires Inv(State())
      modifies this`selections, this`sessions, this`locks
      ensures State() == Next(old(State()), BreakTie(s, m, o)) && Inv(State())
      ensures refusal == Refused(old(State()), BreakTie(s, m, o))
    {
      NextKeepsInv(State(), BreakTie(s, m, o));
      if s !in sessions { return Some(NotFound); }
      if !sessions[s].open { return Some(Closed); }
      if !sessions[s].tiePending { return Some(NotTied); }
      if owner != Some(m) { return Some(NotOwner); }
      if o !in sessions[s].tied { return Some(NotATiedOption); }
      assert TieHolds(State(), s);
      var category := sessions[s].category;
      sessions := sessions[s := sessions[s].(tiePending := false)];
      LockWinner(s, category.value, o);
      return None;
    }
  }

  /** The tops of the tally are the leaders of the vote. */
  lemma LeadersAreTops(r: Room, s: string, counts: map<string, nat>)
    requires IsTally(counts, r.votes, s, r.members)
    ensures forall o :: o in Leaders(r, s) <==> IsTop(counts, o)
    ensures counts == map[] ==> Leaders(r, s) == {}
    ensures counts != map[] ==> Leaders(r, s) != {}
  {
    TallyEmptyWithoutVoters(counts, r.votes, s, r.members);
    forall o
      ensures o in Leaders(r, s) <==> IsTop(counts, o)
    {
      if o in Leaders(r, s) {
        var v :| v in r.votes && v.session == s && v.member in r.members && v.option == o;
        assert v.member in Voters(r.votes, s, r.members);
        TopsLead(counts, r.votes, s, r.members, o);
      }
      if IsTop(counts, o) {
        TopsLead(counts, r.votes, s, r.members, o);
        var m :| m in Supporters(r.votes, s, r.members, o);
      }
    }
    if counts != map[] {
      var top := TopOf(counts, counts.Keys);
      assert IsTop(counts, top);
    }
  }
}
