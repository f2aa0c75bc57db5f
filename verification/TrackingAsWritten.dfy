/**
 * find_first_step with its statements exactly as they stand in track.cs. The number of the mark is converted to 32 bits
 * when the class is first used (track.cs:19); a number that does not fit ends that, and with it every call, in an
 * exception, and the number that the program gives the mark is 2 to the 32nd. For a mark that fits: MARK and UNMARK
 * change no flag, so the rooms that carry the mark are those loaded with it; the head of the queue is read once and
 * never again; an exit to an unknown room ends the call with an exception, and so does reading or shortening an empty
 * queue.
 *
 * The queue is static: a call ended by an exception may leave entries behind, and the next call finds them.
 */
module TrackingAsWritten {
  import opened Wrappers
  import opened RoomGraph

  /** The number of the flag BfsMark. */
  const BFS_MARK := 0x1_0000_0000

  /** The number of the mark can be converted to 32 bits. */
  predicate Fits(mark: int) {
    -0x8000_0000 <= mark < 0x8000_0000
  }

  /** The known rooms, the area of each, the number of the mark, and the rooms that carry it. */
  datatype Land = Land(rooms: World, area: int -> int, mark: int, marked: set<int>)

  /** A call; a missing room stands for null. */
  datatype Request = Request(src: Option<int>, target: Option<int>, maxdist: int)

  /** Testing the exit ends in an exception: it leads to no known room, or the mark cannot be read. */
  predicate Loose(l: Land, e: ExitData) {
    !e.closed && (e.destination !in l.rooms || !Fits(l.mark))
  }

  /** Testing some exit ends in an exception. */
  predicate Dangling(l: Land, exits: seq<ExitData>) {
    exists e :: e in exits && Loose(l, e)
  }

  /** The entries queued for the exits that are followed, up to the first exit that ends the call. */
  function Leads(l: Land, exits: seq<ExitData>, tag: Option<nat>): seq<Entry> {
    if exits == [] || Loose(l, exits[0]) then []
    else
      var e := exits[0];
      (if e.closed || e.destination in l.marked then []
       else [Entry(e.destination, if tag.Some? then tag.value else e.direction)]) + Leads(l, exits[1..], tag)
  }

  // ----- one call in closed form

  /** The queue when the head is read: what was found there, and the entries of the source's exits. */
  function Waiting(l: Land, found: seq<Entry>, src: int): seq<Entry> {
    found + Leads(l, Exits(l.rooms, src), None)
  }

  /** The exits of the one room that is ever examined. */
  function HeadExits(l: Land, queue: seq<Entry>): seq<ExitData>
    requires queue != []
  {
    Exits(l.rooms, queue[0].room)
  }

  /** The answer for two distinct rooms of one area, once the class can be used. */
  function SearchAnswer(l: Land, found: seq<Entry>, src: int, target: int, maxdist: int): Outcome<int> {
    var queue := Waiting(l, found, src);
    if Dangling(l, Exits(l.rooms, src)) || queue == [] then Thrown
    else if maxdist < 1 then Returned(BFS_NO_PATH)
    else if queue[0].room == target then Returned(queue[0].dir)
    else if Dangling(l, HeadExits(l, queue)) then Thrown
    else if Leads(l, HeadExits(l, queue), Some(queue[0].dir)) == [] && maxdist > |queue| then Thrown
    else Returned(BFS_NO_PATH)
  }

  /** The queue that the call leaves behind. */
  function SearchLeft(l: Land, found: seq<Entry>, src: int, target: int, maxdist: int): seq<Entry> {
    var queue := Waiting(l, found, src);
    if Dangling(l, Exits(l.rooms, src)) then queue
    else if queue != [] && maxdist >= 1 && queue[0].room != target && Dangling(l, HeadExits(l, queue))
    then queue + Leads(l, HeadExits(l, queue), Some(queue[0].dir))
    else []
  }

  /** The request leads to a search: neither room is missing, and they are distinct rooms of one area. */
  predicate Searches(l: Land, r: Request) {
    r.src.Some? && r.target.Some? && r.src != r.target && l.area(r.src.value) == l.area(r.target.value)
  }

  function Answer(l: Land, found: seq<Entry>, r: Request): Outcome<int> {
    if !Fits(l.mark) then Thrown
    else if Searches(l, r) then SearchAnswer(l, found, r.src.value, r.target.value, r.maxdist)
    else if r.src == None || r.target == None then Returned(BFS_ERROR)
    else if r.src == r.target then Returned(BFS_ALREADY_THERE)
    else Returned(BFS_NO_PATH)
  }

  function Left(l: Land, found: seq<Entry>, r: Request): seq<Entry> {
    if Fits(l.mark) && Searches(l, r) then SearchLeft(l, found, r.src.value, r.target.value, r.maxdist) else found
  }

  // ----- the statements

  class Tracker {
    var bfsData: seq<Entry>

    constructor ()
      ensures bfsData == []
    {
      bfsData := [];
    }

    /** One loop over a room's exits; `ok` is false when valid_edge ends in an exception. */
    method Scan(l: Land, exits: seq<ExitData>, tag: Option<nat>) returns (ok: bool)
      modifies this
      ensures ok == !Dangling(l, exits)
      ensures bfsData == old(bfsData) + Leads(l, exits, tag)
    {
      for i := 0 to |exits|
        invariant !Dangling(l, exits[..i])
        invariant bfsData + Leads(l, exits[i..], tag) == old(bfsData) + Leads(l, exits, tag)
      {
        var e := exits[i];
        assert exits[..i + 1] == exits[..i] + [e] && exits[i..][1..] == exits[i + 1..];
        if !e.closed {
          if e.destination !in l.rooms || !Fits(l.mark) {
            assert e in exits && Loose(l, e);
            return false;
          }
          if e.destination !in l.marked {
            bfsData := bfsData + [Entry(e.destination, if tag.Some? then tag.value else e.direction)];
          }
        }
      }
      assert exits[..|exits|] == exits;
      return true;
    }

    method FindFirstStep(l: Land, r: Request) returns (answer: Outcome<int>)
      modifies this
      ensures answer == Answer(l, old(bfsData), r)
      ensures bfsData == Left(l, old(bfsData), r)
    {
      hide Dangling, Leads, Exits;
      if !Fits(l.mark) {
        return Thrown;
      }
      if r.src == None || r.target == None {
        return Returned(BFS_ERROR);
      }
      if r.src == r.target {
        return Returned(BFS_ALREADY_THERE);
      }
      if l.area(r.src.value) != l.area(r.target.value) {
        return Returned(BFS_NO_PATH);
      }
      var ok := Scan(l, Exits(l.rooms, r.src.value), None);
      if !ok || bfsData == [] {
        return Thrown;
      }
      ghost var queue := bfsData;
      var queueHead := bfsData[0];
      ghost var again := Leads(l, HeadExits(l, queue), Some(queueHead.dir));
      var count := 0;
      while true
        invariant 0 <= count && (count > 0 ==> count <= r.maxdist && queueHead.room != r.target.value)
        invariant count > 0 ==> !Dangling(l, HeadExits(l, queue))
        invariant count == 0 ==> bfsData == queue
        invariant again == [] ==> |bfsData| == |queue| - count
        decreases r.maxdist - count
      {
        count := count + 1;
        if count > r.maxdist {
          bfsData := [];
          return Returned(BFS_NO_PATH);
        }
        if queueHead.room == r.target.value {
          bfsData := [];
          return Returned(queueHead.dir);
        }
        ok := Scan(l, Exits(l.rooms, queueHead.room), Some(queueHead.dir));
        if !ok || bfsData == [] {
          return Thrown;
        }
        bfsData := bfsData[1..];
      }
    }
  }

  // ----- when the answer is right all the same

  /** What a search owes its caller when enough rooms may be examined. */
  ghost predicate Right(w: World, src: int, target: int, answer: Outcome<int>) {
    if Reachable(w, src, target)
    then answer.Returned? && answer.value >= 0 && StartsShortestWalk(w, src, answer.value, target)
    else answer == Returned(BFS_NO_PATH)
  }

  /** The request for the way from one room to another. */
  function Between(src: int, target: int, maxdist: int): Request {
    Request(Some(src), Some(target), maxdist)
  }

  /** With the program's own mark every call ends in an exception, changes nothing, and answers no search rightly. */
  lemma MarkDoesNotFit(l: Land, found: seq<Entry>, r: Request)
    requires l.mark == BFS_MARK
    ensures Answer(l, found, r) == Thrown && Left(l, found, r) == found
    ensures Searches(l, r) ==> !Right(l.rooms, r.src.value, r.target.value, Answer(l, found, r))
  {
  }

  lemma {:induction false} LeadsFollowExits(l: Land, exits: seq<ExitData>, tag: Option<nat>)
    ensures forall q :: q in Leads(l, exits, tag) ==>
      exists e :: e in exits && Open(l.rooms, e) && e.destination == q.room && (tag == None ==> e.direction == q.dir)
  {
    if exits != [] && !Loose(l, exits[0]) {
      LeadsFollowExits(l, exits[1..], tag);
      assert exits == [exits[0]] + exits[1..];
    }
  }

  /** Exits that queue nothing, and do not end the call, are closed or lead to marked rooms. */
  lemma {:induction false} LeadsSomewhere(l: Land, exits: seq<ExitData>, tag: Option<nat>)
    requires !Dangling(l, exits)
    ensures Leads(l, exits, tag) != [] <==> exists e :: e in exits && !e.closed && e.destination !in l.marked
  {
    if exits != [] {
      assert exits == [exits[0]] + exits[1..];
      LeadsSomewhere(l, exits[1..], tag);
      assert exits[0] in exits;
    }
  }

  /**
   * When the target can be reached, the answer is right exactly when the mark fits into 32 bits, no exit of the source
   * dangles, the target is the head of the queue, at least one room may be examined, and a head left over from an
   * earlier call happens to name the first direction of a shortest walk. On an empty queue the head is the room behind
   * the first exit of the source that is neither closed nor leads to a marked room.
   */
  lemma RightWhenReachable(l: Land, found: seq<Entry>, src: int, target: int, maxdist: int)
    requires src in l.rooms && src != target && l.area(src) == l.area(target) && Reachable(l.rooms, src, target)
    ensures var queue := Waiting(l, found, src);
      Right(l.rooms, src, target, Answer(l, found, Between(src, target, maxdist))) <==>
      && Fits(l.mark)
      && !Dangling(l, Exits(l.rooms, src))
      && queue != [] && queue[0].room == target && maxdist >= 1
      && (found != [] ==> StartsShortestWalk(l.rooms, src, found[0].dir, target))
  {
    hide Dangling, Leads, StartsShortestWalk, Reachable;
    var queue := Waiting(l, found, src);
    if found == [] && queue != [] && queue[0].room == target {
      LeadsFollowExits(l, Exits(l.rooms, src), None);
      assert queue[0] in queue;
      var e :| e in Exits(l.rooms, src) && Open(l.rooms, e) && e.destination == target && e.direction == queue[0].dir;
      OneStepIsShortest(l.rooms, src, e);
    }
  }

  lemma OneStepIsShortest(w: World, src: int, e: ExitData)
    requires e in Exits(w, src) && Open(w, e) && src != e.destination
    ensures StartsShortestWalk(w, src, e.direction, e.destination)
  {
    assert Walk(w, e.destination, e.destination, 0);
    assert WalkVia(w, src, e.direction, e.destination, 1);
    forall m: nat | Walk(w, src, e.destination, m)
      ensures 1 <= m
    {
    }
  }

  /**
   * When the target cannot be reached, the answer is right exactly when the mark fits into 32 bits, no exit of the
   * source dangles, the queue has a head, and unless no room may be examined: the target is not left over at the head
   * from an earlier call, no exit of the head dangles, and the head has a way on too or the budget ends before the
   * queue runs dry.
   */
  lemma RightWhenUnreachable(l: Land, found: seq<Entry>, src: int, target: int, maxdist: int)
    requires src in l.rooms && src != target && l.area(src) == l.area(target) && !Reachable(l.rooms, src, target)
    ensures var queue := Waiting(l, found, src);
      Right(l.rooms, src, target, Answer(l, found, Between(src, target, maxdist))) <==>
      && Fits(l.mark)
      && !Dangling(l, Exits(l.rooms, src))
      && queue != []
      && (maxdist < 1 ||
          (&& (found != [] ==> found[0].room != target)
           && !Dangling(l, HeadExits(l, queue))
           && (maxdist <= |queue| ||
               exists e :: e in HeadExits(l, queue) && !e.closed && e.destination !in l.marked)))
  {
    hide Dangling, Leads, Exits;
    var queue := Waiting(l, found, src);
    if queue != [] {
      if found == [] {
        LeadsFollowExits(l, Exits(l.rooms, src), None);
        assert queue[0] in queue;
        assert Walk(l.rooms, src, src, 0) && Step(l.rooms, src, queue[0].room);
        assert Walk(l.rooms, src, queue[0].room, 1);
      }
      if !Dangling(l, HeadExits(l, queue)) {
        LeadsSomewhere(l, HeadExits(l, queue), Some(queue[0].dir));
      }
    }
  }

  // ----- what calls leave to one another

  /** The queue after a run of calls. */
  function QueueAfter(l: Land, found: seq<Entry>, run: seq<Request>): seq<Entry> {
    if run == [] then found else Left(l, QueueAfter(l, found, run[..|run| - 1]), run[|run| - 1])
  }

  /** How the last call of a run is answered. */
  function LastAnswer(l: Land, run: seq<Request>): Outcome<int>
    requires run != []
  {
    Answer(l, QueueAfter(l, [], run[..|run| - 1]), run[|run| - 1])
  }

  /** A search that gives an answer leaves nothing behind; only an exception can, and it adds to what it found. */
  lemma OnlyThrowsLeave(l: Land, found: seq<Entry>, r: Request)
    requires Searches(l, r) && Left(l, found, r) != []
    ensures Answer(l, found, r) == Thrown && found <= Left(l, found, r)
    ensures !Fits(l.mark) || Dangling(l, Exits(l.rooms, r.src.value)) ||
            (Waiting(l, found, r.src.value) != [] && Dangling(l, HeadExits(l, Waiting(l, found, r.src.value))))
  {
  }

  /** As long as no call of a run ends in an exception, every call finds the queue empty. */
  lemma {:induction false} QuietRun(l: Land, run: seq<Request>, k: nat)
    requires k <= |run| && forall i :: 0 < i <= k ==> LastAnswer(l, run[..i]).Returned?
    ensures QueueAfter(l, [], run[..k]) == []
  {
    hide Answer, Left;
    if k > 0 {
      QuietRun(l, run, k - 1);
      assert run[..k][..k - 1] == run[..k - 1];
      assert LastAnswer(l, run[..k]).Returned?;
      AnswerClears(l, run[k - 1]);
    }
  }

  lemma AnswerClears(l: Land, r: Request)
    requires Answer(l, [], r).Returned?
    ensures Left(l, [], r) == []
  {
    if Searches(l, r) && Left(l, [], r) != [] {
      OnlyThrowsLeave(l, [], r);
    }
  }

  /** Where every exit that is not closed leads to a known room, every call of every run finds the queue empty. */
  lemma {:induction false} SoundLand(l: Land, run: seq<Request>)
    requires forall room :: room in l.rooms ==> !Dangling(l, l.rooms[room])
    ensures QueueAfter(l, [], run) == []
    decreases |run|
  {
    if run != [] {
      SoundLand(l, run[..|run| - 1]);
    }
  }

  // ----- inputs on which the answer is wrong

  function Way(direction: nat, destination: int): ExitData {
    ExitData(direction, false, destination)
  }

  /** A target two steps away along a corridor is not found, even with a mark that fits. */
  lemma TwoStepsAway(l: Land)
    requires l.rooms == map[1 := [Way(0, 2)], 2 := [Way(0, 3)], 3 := []]
    requires Fits(l.mark) && l.marked == {} && l.area == (room => 0)
    ensures Answer(l, [], Between(1, 3, 10)) == Returned(BFS_NO_PATH)
    ensures !Right(l.rooms, 1, 3, Answer(l, [], Between(1, 3, 10)))
  {
    hide StartsShortestWalk, SearchAnswer, Leads;
    Corridor(l);
    assert Way(0, 2) in Exits(l.rooms, 1) && Way(0, 3) in Exits(l.rooms, 2);
    assert Walk(l.rooms, 1, 1, 0) && Step(l.rooms, 1, 2) && Walk(l.rooms, 1, 2, 1) && Step(l.rooms, 2, 3);
    assert Walk(l.rooms, 1, 3, 2);
  }

  lemma NoLeads(l: Land, tag: Option<nat>)
    ensures Leads(l, [], tag) == []
  {
  }

  /** The entries of a single way. */
  lemma OneLead(l: Land, e: ExitData, tag: Option<nat>)
    requires Fits(l.mark) && Open(l.rooms, e) && e.destination !in l.marked
    ensures Leads(l, [e], tag) == [Entry(e.destination, if tag.Some? then tag.value else e.direction)]
    ensures !Dangling(l, [e])
  {
    NoLeads(l, tag);
    assert [e][1..] == [] && !Loose(l, e);
    assert [Entry(e.destination, if tag.Some? then tag.value else e.direction)] + [] ==
           [Entry(e.destination, if tag.Some? then tag.value else e.direction)];
  }

  lemma Corridor(l: Land)
    requires l.rooms == map[1 := [Way(0, 2)], 2 := [Way(0, 3)], 3 := []]
    requires Fits(l.mark) && l.marked == {}
    ensures SearchAnswer(l, [], 1, 3, 10) == Returned(BFS_NO_PATH)
  {
    hide Leads, Dangling;
    OneLead(l, Way(0, 2), None);
    OneLead(l, Way(0, 3), Some(0));
    assert Waiting(l, [], 1) == [Entry(2, 0)];
  }

  /**
   * Even with a mark that fits, a call that trips over a dangling exit spoils the next one, which from an empty queue
   * would have been right.
   */
  lemma StaleHead(l: Land)
    requires l.rooms == map[1 := [Way(0, 2), Way(1, 9)], 2 := [], 3 := [Way(0, 4)], 4 := []]
    requires Fits(l.mark) && l.marked == {} && l.area == (room => 0)
    ensures Answer(l, [], Between(3, 4, 10)) == Returned(0)
    ensures Right(l.rooms, 3, 4, Answer(l, [], Between(3, 4, 10)))
    ensures QueueAfter(l, [], [Between(1, 2, 10)]) == [Entry(2, 0)]
    ensures Answer(l, [Entry(2, 0)], Between(3, 4, 10)) == Thrown
  {
    hide StartsShortestWalk, Leads, Dangling, Reachable, SearchAnswer, SearchLeft;
    OneLead(l, Way(0, 4), None);
    assert Way(0, 4) in Exits(l.rooms, 3) && Open(l.rooms, Way(0, 4));
    OneStepIsShortest(l.rooms, 3, Way(0, 4));
    assert Walk(l.rooms, 3, 3, 0) && Step(l.rooms, 3, 4) && Walk(l.rooms, 3, 4, 1);
    assert Reachable(l.rooms, 3, 4) by { ReachableBy(l.rooms, 3, 4, 1); }
    LeftByFirst(l);
    SecondCall(l);
    assert [Between(1, 2, 10)][..0] == [];
  }

  lemma ReachableBy(w: World, u: int, v: int, n: nat)
    requires Walk(w, u, v, n)
    ensures Reachable(w, u, v)
  {
  }

  lemma LeftByFirst(l: Land)
    requires l.rooms == map[1 := [Way(0, 2), Way(1, 9)], 2 := [], 3 := [Way(0, 4)], 4 := []]
    requires Fits(l.mark) && l.marked == {}
    ensures SearchLeft(l, [], 1, 2, 10) == [Entry(2, 0)]
  {
    assert [Way(0, 2), Way(1, 9)][1..] == [Way(1, 9)];
    assert Way(1, 9) in Exits(l.rooms, 1) && Loose(l, Way(1, 9)) && !Loose(l, Way(0, 2));
    assert Leads(l, [Way(1, 9)], None) == [];
    assert Leads(l, [Way(0, 2), Way(1, 9)], None) == [Entry(2, 0)] + [];
    assert Waiting(l, [], 1) == [Entry(2, 0)];
  }

  lemma SecondCall(l: Land)
    requires l.rooms == map[1 := [Way(0, 2), Way(1, 9)], 2 := [], 3 := [Way(0, 4)], 4 := []]
    requires Fits(l.mark) && l.marked == {}
    ensures SearchAnswer(l, [], 3, 4, 10) == Returned(0)
    ensures SearchAnswer(l, [Entry(2, 0)], 3, 4, 10) == Thrown
  {
    hide Leads;
    OneLead(l, Way(0, 4), None);
    NoLeads(l, Some(0));
    assert Waiting(l, [], 3) == [Entry(4, 0)];
    assert Waiting(l, [Entry(2, 0)], 3) == [Entry(2, 0), Entry(4, 0)];
  }
}
