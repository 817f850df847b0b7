/** Two services on one PMT pid show how a stale claim can leave a subscribed pid without an owner. */
module ElectionExample {
  import opened ElectionSpec
  import opened ElectionOrder
  import opened ElectionOutcome
  import opened ElectionOwners
  import opened StreamMatch
  import opened PmtData

  function Client(pid: Pid, order: nat): Slot { Slot(true, pid, {0}, order) }

  function Video(pid: Pid): StreamPid { StreamPid(27, pid, false, true, []) }

  function Service(streams: seq<StreamPid>): Pmt { Pmt(true, 50, PmtContent([], streams, [])) }

  /** Both PMTs are on pid 50; PMT 0 lists pids 100 and 101, PMT 1 lists 101 and used to list 100. */
  function SharedPmtPid(): Env {
    Env(false, [Client(50, 1), Client(100, 2), Client(101, 3)],
        [Service([Video(100), Video(101)]), Service([Video(101)])], [0, 1])
  }

  /** PMT 1 is running on its claim of pid 100, which its update has since dropped. */
  function StaleClaim(): Claims { Claims([-1, 1, -1], [Stopped, Running]) }

  lemma SlotsOf()
    ensures var slots := SharedPmtPid().slots;
            ActiveSlot(slots, 50) == 0 && ActiveSlot(slots, 100) == 1 && ActiveSlot(slots, 101) == 2
  {
  }

  lemma ClientsOf()
    ensures var env := SharedPmtPid();
            && (forall i :: 0 <= i < 3 ==> Subscribed(env, i) && HasClient(env.slots[i]))
            && ClientHas(env, 100) && ClientHas(env, 101)
  {
  }

  /** Same order, both complete: neither outranks the other. */
  lemma FullTie()
    ensures var env := SharedPmtPid(); !Outranks(env, 0, 1) && !Outranks(env, 1, 0)
  {
  }

  lemma BothStart()
    ensures IsStartCandidate(SharedPmtPid(), StaleClaim(), 0) && IsStartCandidate(SharedPmtPid(), StaleClaim(), 1)
  {
    hide HasClient, ActiveSlot;
    var env := SharedPmtPid();
    SlotsOf();
    ClientsOf();
    assert env.pmts[0].content.streams[1] == Video(101) && env.pmts[1].content.streams[0] == Video(101);
  }

  lemma BothCandidates()
    ensures Candidates(SharedPmtPid(), StaleClaim()) == [0, 1]
  {
    hide IsStartCandidate;
    var env, c := SharedPmtPid(), StaleClaim();
    BothStart();
    var keep := (id: int) => IsStartCandidate(env, c, id);
    FilterSnoc([], 0, keep);
    FilterSnoc([0], 1, keep);
    assert [] + [0] == [0] && [0] + [1] == env.listed;
  }

  lemma BothElected()
    ensures Elected(SharedPmtPid(), StaleClaim()) == [0, 1]
  {
    hide Outranks, SamePmt, Candidates;
    var env := SharedPmtPid();
    BothCandidates();
    FullTie();
    assert [0, 1][1..] == [1] && [1][1..] == [];
    assert StableSort(env, [1]) == [1];
    assert StableSort(env, [0, 1]) == [0, 1];
    DifferentStreams();
    var other := y => !SamePmt(env, 0, y);
    FilterSnoc([], 1, other);
    assert [] + [1] == [1];
    assert WithoutCopies(env, 0, [1]) == [1];
    assert Dedupe(env, [1]) == [1];
  }

  lemma DifferentStreams()
    ensures !SamePmt(SharedPmtPid(), 0, 1)
  {
    var a, b := KeysOf([Video(100), Video(101)]), KeysOf([Video(101)]);
    assert |multiset(a)| == 2 && |multiset(b)| == 1;
  }

  lemma ListsOf()
    ensures var env := SharedPmtPid();
            && (forall i :: Lists(env, 0, i) <==> i == 1 || i == 2)
            && (forall i :: Lists(env, 1, i) <==> i == 2)
            && (forall id, i :: Lists(env, id, i) ==> ListsAsAv(env, id, i))
  {
    var env := SharedPmtPid();
    SlotsOf();
    assert env.pmts[0].content.streams == [Video(100), Video(101)] && env.pmts[1].content.streams == [Video(101)];
    assert env.pmts[0].content.streams[0] == Video(100) && env.pmts[0].content.streams[1] == Video(101);
    assert env.pmts[1].content.streams[0] == Video(101);
  }

  lemma FirstTurn()
    ensures Turn(SharedPmtPid(), StaleClaim(), 0) == Claims([-1, 1, 0], [Running, Running])
  {
    hide Outranks, Lists, ListsAsAv, HasClient;
    var env, c := SharedPmtPid(), StaleClaim();
    ClientsOf();
    FullTie();
    ListsOf();
    assert Taken(env, c.owner, 0) == [-1, 1, 0];
    assert [-1, 1, 0][2] == 0 && HoldsAv(env, [-1, 1, 0], 0);
  }

  lemma SecondTurn()
    ensures Turn(SharedPmtPid(), Claims([-1, 1, 0], [Running, Running]), 1) == Claims([-1, -1, 0], [Running, Stopped])
  {
    hide Outranks, Lists, HasClient;
    var env, c := SharedPmtPid(), Claims([-1, 1, 0], [Running, Running]);
    ClientsOf();
    FullTie();
    ListsOf();
    assert Taken(env, c.owner, 1) == [-1, 1, 0];
    assert !HoldsAv(env, [-1, 1, 0], 1) by { hide ListsAsAv; NotAvOfSecond(); }
  }

  lemma NotAvOfSecond()
    ensures !ListsAsAv(SharedPmtPid(), 1, 1)
  {
  }

  /** PMT 0 takes pid 101 but cannot take pid 100 on the tie; PMT 1 then owns nothing it lists, is stopped,
      and its stale claim goes: pid 100 has no owner although the elected PMT 0 lists it. */
  lemma StaleClaimLosesPid()
    ensures var env, c := SharedPmtPid(), StaleClaim();
            && c.Fits(env) && env.Valid() && Settled(env, c) && Subscribed(env, 1)
            && ListersSeeAv(env, 1, Elected(env, c)) && 0 in Elected(env, c) && Lists(env, 0, 1)
            && Elect(env, c).owner[1] == -1
  {
    hide Outranks, Lists, ListsAsAv, HasClient, Turn, Elected;
    var env, c := SharedPmtPid(), StaleClaim();
    ClientsOf();
    ListsOf();
    BothElected();
    FirstTurn();
    SecondTurn();
    assert AfterStops(env, c).owner == c.owner && AfterStops(env, c).state == c.state;
    assert [0, 1][..1] == [0] && [0][..0] == [];
    assert ClaimPass(env, c, []) == c;
    assert ClaimPass(env, c, [0]) == Claims([-1, 1, 0], [Running, Running]);
  }
}
