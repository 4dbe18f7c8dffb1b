/**
 * The motion recorder (`MouseDataCollector`): it turns consecutive absolute
 * pointer positions into absolute-delta pairs, buffers them, and cuts the
 * buffer into blocks of 128 displacements (256 scalars), each saved as one
 * CSV row tagged with the username and the label.
 *
 * The CSV file is modelled as the sequence of rows appended to it; the status
 * and counter callbacks are modelled as logs of the values handed to them.
 */
module Recorder {
  import opened Common

  /** Displacements per block. */
  const BlockSize: nat := 128
  /** Scalars per displacement (dx, dy). */
  const Dimensions: nat := 2
  /** Scalars per block. */
  const BlockScalars: nat := BlockSize * Dimensions

  /** The output folder; the file name is joined to it with a POSIX separator. */
  const OutputFolder: string := "mousedatacollection"

  datatype Point = Point(x: int, y: int)

  /** A CSV field: a magnitude of the block, or one of the two trailing text fields. */
  datatype Field = Magnitude(n: nat) | Text(s: string)

  /** What the status callback is told; the message text is left unrendered. */
  datatype Status =
    | Collecting(user: string)
    | SavedBlock(count: nat, user: string)
    | Stopped(file: string)

  /** The pynput button of a click; it does not influence recording. */
  datatype Button = LeftButton | MiddleButton | RightButton

  function Abs(n: int): nat {
    if n < 0 then -n else n
  }

  // ---------------------------------------------------------------------
  // Displacements
  // ---------------------------------------------------------------------

  /** The scalars one move appends to the buffer: nothing when the pointer did not move. */
  function Displacement(from: Point, to: Point): (d: seq<nat>)
    ensures d == [] <==> from == to
    ensures d != [] ==> |d| == Dimensions && d[0] + d[1] > 0
    ensures d != [] ==> d[0] == Abs(from.x - to.x) && d[1] == Abs(from.y - to.y)
  {
    var dx := to.x - from.x;
    var dy := to.y - from.y;
    if dx != 0 || dy != 0 then [Abs(dx), Abs(dy)] else []
  }

  /** The scalars a move event appends, given the last recorded position (if any). */
  function Step(last: Option<Point>, p: Point): seq<nat> {
    match last
    case None => []
    case Some(q) => Displacement(q, p)
  }

  /** All scalars recorded along a path of positions, starting from `start`. */
  function Deltas(start: Point, path: seq<Point>): seq<nat>
    decreases |path|
  {
    if path == [] then [] else Displacement(start, path[0]) + Deltas(path[0], path[1..])
  }

  /** The number of transitions along the path that actually move the pointer. */
  function Moves(start: Point, path: seq<Point>): nat
    decreases |path|
  {
    if path == [] then 0
    else (if start != path[0] then 1 else 0) + Moves(path[0], path[1..])
  }

  /** Every position of the path differs from the one before it. */
  ghost predicate AlwaysMoves(start: Point, path: seq<Point>) {
    (path != [] ==> start != path[0]) &&
    forall i :: 0 < i < |path| ==> path[i - 1] != path[i]
  }

  /** Only moving transitions enter the buffer, two scalars each, never a (0, 0) pair. */
  lemma {:induction false} DeltasCountMoves(start: Point, path: seq<Point>)
    ensures |Deltas(start, path)| == Dimensions * Moves(start, path)
    ensures forall k :: 0 <= k < Moves(start, path) ==>
      Deltas(start, path)[2 * k] + Deltas(start, path)[2 * k + 1] > 0
    decreases |path|
  {
    if path != [] {
      DeltasCountMoves(path[0], path[1..]);
      var d := Displacement(start, path[0]);
      var rest := Deltas(path[0], path[1..]);
      assert Deltas(start, path) == d + rest;
      forall k | 0 <= k < Moves(start, path)
        ensures Deltas(start, path)[2 * k] + Deltas(start, path)[2 * k + 1] > 0
      {
        if d == [] {
          assert Deltas(start, path) == rest;
        } else if k > 0 {
          assert Deltas(start, path)[2 * k] == rest[2 * (k - 1)];
          assert Deltas(start, path)[2 * k + 1] == rest[2 * (k - 1) + 1];
        }
      }
    }
  }

  /** On a path where every sample moves the pointer, each sample yields one displacement. */
  lemma {:induction false} MovingPathCountsAll(start: Point, path: seq<Point>)
    requires AlwaysMoves(start, path)
    ensures Moves(start, path) == |path|
    decreases |path|
  {
    if path != [] {
      assert AlwaysMoves(path[0], path[1..]) by {
        forall i | 0 < i < |path[1..]| ensures path[1..][i - 1] != path[1..][i] {
          assert path[1..][i - 1] == path[i] && path[1..][i] == path[i + 1];
        }
        if |path| > 1 {
          assert path[0] != path[1];
        }
      }
      MovingPathCountsAll(path[0], path[1..]);
    }
  }

  // ---------------------------------------------------------------------
  // Blocks
  // ---------------------------------------------------------------------

  /** The complete blocks cut from a stream of scalars, front first. */
  function Blocks(s: seq<nat>): seq<seq<nat>>
    decreases |s|
  {
    if |s| < BlockScalars then [] else [s[..BlockScalars]] + Blocks(s[BlockScalars..])
  }

  /** What is left in the buffer once every complete block is cut off. */
  function Pending(s: seq<nat>): seq<nat>
    decreases |s|
  {
    if |s| < BlockScalars then s else Pending(s[BlockScalars..])
  }

  function Concat(bs: seq<seq<nat>>): seq<nat> {
    if bs == [] then [] else bs[0] + Concat(bs[1..])
  }

  /** Blocking loses nothing and keeps order: blocks then remainder give back the stream. */
  lemma BlocksPartition(s: seq<nat>)
    ensures Concat(Blocks(s)) + Pending(s) == s
    ensures |Blocks(s)| == |s| / BlockScalars
    ensures |Pending(s)| == |s| % BlockScalars
    ensures forall i :: 0 <= i < |Blocks(s)| ==> |Blocks(s)[i]| == BlockScalars
  {
    BlocksRebuild(s);
    BlocksCount(s);
    BlocksFull(s);
  }

  lemma {:induction false} BlocksRebuild(s: seq<nat>)
    ensures Concat(Blocks(s)) + Pending(s) == s
    decreases |s|
  {
    if |s| >= BlockScalars {
      var t := s[BlockScalars..];
      BlocksRebuild(t);
      assert Blocks(s)[1..] == Blocks(t);
      assert s == s[..BlockScalars] + t;
    }
  }

  lemma {:induction false} BlocksCount(s: seq<nat>)
    ensures |Blocks(s)| == |s| / BlockScalars
    ensures |Pending(s)| == |s| % BlockScalars
    decreases |s|
  {
    if |s| >= BlockScalars {
      var t := s[BlockScalars..];
      BlocksCount(t);
      assert |t| == |s| - BlockScalars;
    }
  }

  lemma {:induction false} BlocksFull(s: seq<nat>)
    ensures forall i :: 0 <= i < |Blocks(s)| ==> |Blocks(s)[i]| == BlockScalars
    decreases |s|
  {
    if |s| >= BlockScalars {
      BlocksFull(s[BlockScalars..]);
    }
  }

  /** Appending to the stream only ever touches the pending remainder. */
  lemma {:induction false} BlocksAppend(a: seq<nat>, t: seq<nat>)
    ensures Blocks(a + t) == Blocks(a) + Blocks(Pending(a) + t)
    ensures Pending(a + t) == Pending(Pending(a) + t)
    decreases |a|
  {
    if |a| >= BlockScalars {
      var r := a[BlockScalars..];
      BlocksAppend(r, t);
      assert (a + t)[..BlockScalars] == a[..BlockScalars];
      assert (a + t)[BlockScalars..] == r + t;
    }
  }

  /** A buffer that holds at most one block's worth yields that block and the rest. */
  lemma BlocksOfShort(g: seq<nat>)
    requires |g| < 2 * BlockScalars
    ensures Blocks(g) == if |g| >= BlockScalars then [g[..BlockScalars]] else []
    ensures Pending(g) == if |g| >= BlockScalars then g[BlockScalars..] else g
  {
    if |g| >= BlockScalars {
      assert |g[BlockScalars..]| < BlockScalars;
    }
  }

  // ---------------------------------------------------------------------
  // CSV rows
  // ---------------------------------------------------------------------

  function Encode(b: seq<nat>): (fs: seq<Field>)
    ensures |fs| == |b|
    ensures forall i :: 0 <= i < |b| ==> fs[i] == Magnitude(b[i])
  {
    seq(|b|, i requires 0 <= i < |b| => Magnitude(b[i]))
  }

  /** The magnitudes among a list of fields, in order. */
  function Magnitudes(fs: seq<Field>): seq<nat> {
    if fs == [] then []
    else (match fs[0] case Magnitude(n) => [n] case Text(_) => []) + Magnitudes(fs[1..])
  }

  /** The row written for one block: its scalars, then the username and the label. */
  function RowOf(block: seq<nat>, username: string, userLabel: string): seq<Field> {
    Encode(block) + [Text(username), Text(userLabel)]
  }

  /** The block read back from the first BlockScalars fields of a saved row. */
  function BlockOf(row: seq<Field>): seq<nat> {
    Magnitudes(if |row| >= BlockScalars then row[..BlockScalars] else row)
  }

  lemma {:induction false} MagnitudesEncode(b: seq<nat>)
    ensures Magnitudes(Encode(b)) == b
    decreases |b|
  {
    if b != [] {
      MagnitudesEncode(b[1..]);
      assert Encode(b)[1..] == Encode(b[1..]);
    }
  }

  /** A saved row has the block's fields, then the two tags; its block reads back unchanged. */
  lemma RowRoundTrip(block: seq<nat>, username: string, userLabel: string)
    requires |block| == BlockScalars
    ensures |RowOf(block, username, userLabel)| == BlockScalars + 2
    ensures RowOf(block, username, userLabel)[BlockScalars] == Text(username)
    ensures RowOf(block, username, userLabel)[BlockScalars + 1] == Text(userLabel)
    ensures BlockOf(RowOf(block, username, userLabel)) == block
  {
    assert RowOf(block, username, userLabel)[..BlockScalars] == Encode(block);
    MagnitudesEncode(block);
  }

  /** The rows written for a list of blocks, in order. */
  function Rows(bs: seq<seq<nat>>, username: string, userLabel: string): seq<seq<Field>> {
    if bs == [] then [] else [RowOf(bs[0], username, userLabel)] + Rows(bs[1..], username, userLabel)
  }

  lemma {:induction false} RowsAppend(x: seq<seq<nat>>, y: seq<seq<nat>>, username: string, userLabel: string)
    ensures Rows(x + y, username, userLabel) == Rows(x, username, userLabel) + Rows(y, username, userLabel)
    decreases |x|
  {
    if x != [] {
      RowsAppend(x[1..], y, username, userLabel);
      assert (x + y)[0] == x[0];
      assert (x + y)[1..] == x[1..] + y;
    } else {
      assert x + y == y;
    }
  }

  lemma {:induction false} RowsLength(bs: seq<seq<nat>>, username: string, userLabel: string)
    ensures |Rows(bs, username, userLabel)| == |bs|
    decreases |bs|
  {
    if bs != [] {
      RowsLength(bs[1..], username, userLabel);
    }
  }

  /** The scalars held by the first BlockScalars fields of every saved row, in file order. */
  function SavedScalars(rows: seq<seq<Field>>): seq<nat> {
    if rows == [] then [] else BlockOf(rows[0]) + SavedScalars(rows[1..])
  }

  /**
   * No loss, order preserved: the saved rows' scalars followed by the pending
   * buffer are exactly the recorded stream.
   */
  lemma {:induction false} NoLoss(s: seq<nat>, username: string, userLabel: string)
    ensures SavedScalars(Rows(Blocks(s), username, userLabel)) + Pending(s) == s
    decreases |s|
  {
    if |s| >= BlockScalars {
      var t := s[BlockScalars..];
      NoLoss(t, username, userLabel);
      RowRoundTrip(s[..BlockScalars], username, userLabel);
      var rs := Rows(Blocks(s), username, userLabel);
      assert Blocks(s) == [s[..BlockScalars]] + Blocks(t);
      assert Blocks(s)[1..] == Blocks(t);
      assert rs[1..] == Rows(Blocks(t), username, userLabel);
      assert s == s[..BlockScalars] + t;
    }
  }

  /**
   * A session whose every sample moves the pointer: with n samples the rows
   * hold n / 128 blocks and the counter reports n % 128 pending displacements.
   */
  lemma MovingSessionBlocks(start: Point, path: seq<Point>)
    requires AlwaysMoves(start, path)
    ensures |Blocks(Deltas(start, path))| == |path| / BlockSize
    ensures |Pending(Deltas(start, path))| / Dimensions == |path| % BlockSize
  {
    MovingPathCountsAll(start, path);
    DeltasCountMoves(start, path);
    BlocksPartition(Deltas(start, path));
  }

  /** 130 moving samples: one block saved, two displacements left pending. */
  lemma OneHundredThirtySamples(start: Point, path: seq<Point>)
    requires |path| == 130 && AlwaysMoves(start, path)
    ensures |Blocks(Deltas(start, path))| == 1
    ensures |Pending(Deltas(start, path))| / Dimensions == 2
  {
    MovingSessionBlocks(start, path);
  }

  // ---------------------------------------------------------------------
  // The collector
  // ---------------------------------------------------------------------

  class Collector {
    const username: string
    const userLabel: string
    const sessionDuration: string
    const outputFilename: string

    /** The event buffer: pending scalars, oldest first. */
    var events: seq<nat>
    var lastPos: Option<Point>
    var isCollecting: bool
    var blockCount: nat
    /** The rows appended to the output file, oldest first. */
    var rows: seq<seq<Field>>
    /** Everything handed to the status callback, in order. */
    var statusLog: seq<Status>
    /** Everything handed to the counter callback, in order. */
    var counterLog: seq<(nat, nat)>

    /** Every scalar ever appended to the buffer, in order. */
    ghost var recorded: seq<nat>

    ghost predicate Valid()
      reads this
    {
      && |recorded| % Dimensions == 0
      && events == Pending(recorded)
      && rows == Rows(Blocks(recorded), username, userLabel)
      && blockCount == |rows|
    }

    /** The buffer is even and below one block. */
    lemma BufferShape()
      requires Valid()
      ensures |events| % Dimensions == 0 && |events| < BlockScalars
    {
      BlocksPartition(recorded);
    }

    /** The buffer is even and below one block, and nothing recorded is lost. */
    lemma Invariants()
      requires Valid()
      ensures |events| % Dimensions == 0 && |events| < BlockScalars
      ensures SavedScalars(rows) + events == recorded
      ensures blockCount == |Blocks(recorded)|
    {
      BufferShape();
      NoLoss(recorded, username, userLabel);
      RowsLength(Blocks(recorded), username, userLabel);
    }

    constructor (username: string, userLabel: string, sessionDuration: string)
      ensures this.username == username && this.userLabel == userLabel
      ensures this.sessionDuration == sessionDuration
      ensures outputFilename == OutputFolder + "/sapimouse_ABS_dx_dy_" + sessionDuration + "min.csv"
      ensures events == [] && lastPos == None && !isCollecting && blockCount == 0
      ensures rows == [] && statusLog == [] && counterLog == [] && recorded == []
      ensures Valid()
    {
      this.username := username;
      this.userLabel := userLabel;
      this.sessionDuration := sessionDuration;
      outputFilename := OutputFolder + "/sapimouse_ABS_dx_dy_" + sessionDuration + "min.csv";
      events := [];
      lastPos := None;
      isCollecting := false;
      blockCount := 0;
      rows := [];
      statusLog := [];
      counterLog := [];
      recorded := [];
    }

    /** The whole effect of a pointer event at `p` (move, click or scroll). */
    twostate predicate MovedTo(p: Point)
      reads this
    {
      if !old(isCollecting) then
        && events == old(events) && lastPos == old(lastPos) && !isCollecting
        && blockCount == old(blockCount) && rows == old(rows)
        && statusLog == old(statusLog) && counterLog == old(counterLog)
        && recorded == old(recorded)
      else
        var step := Step(old(lastPos), p);
        var grown := old(events) + step;
        var full := |grown| >= BlockScalars;
        && isCollecting
        && lastPos == Some(p)
        && recorded == old(recorded) + step
        && events == (if full then grown[BlockScalars..] else grown)
        && rows == old(rows) + (if full then [RowOf(grown[..BlockScalars], username, userLabel)] else [])
        && blockCount == old(blockCount) + (if full then 1 else 0)
        && statusLog == old(statusLog) + (if full then [SavedBlock(blockCount, username)] else [])
        && counterLog == old(counterLog) + [(|events| / Dimensions, blockCount)]
    }

    method OnMove(x: int, y: int)
      requires Valid()
      modifies this
      ensures Valid()
      ensures MovedTo(Point(x, y))
    {
      if !isCollecting { return; }
      ghost var step := Step(lastPos, Point(x, y));
      ghost var before := recorded;
      BufferShape();
      if lastPos.Some? {
        var dx := x - lastPos.value.x;
        var dy := y - lastPos.value.y;
        if dx != 0 || dy != 0 {
          assert step == [Abs(dx), Abs(dy)];
          events := events + [Abs(dx), Abs(dy)];
          recorded := recorded + [Abs(dx), Abs(dy)];
          CheckBlockSize();
        } else {
          assert step == [];
        }
      }
      assert recorded == before + step;
      lastPos := Some(Point(x, y));
      counterLog := counterLog + [(|events| / Dimensions, blockCount)];
      KeptValid(before, step);
    }

    /** Appending one step to the stream and draining once restores the invariant. */
    lemma KeptValid(before: seq<nat>, step: seq<nat>)
      requires |before| % Dimensions == 0 && |step| % Dimensions == 0 && |step| <= Dimensions
      requires recorded == before + step
      requires
        var grown := Pending(before) + step;
        && |grown| < 2 * BlockScalars
        && events == (if |grown| >= BlockScalars then grown[BlockScalars..] else grown)
        && rows == Rows(Blocks(before), username, userLabel)
                   + (if |grown| >= BlockScalars then [RowOf(grown[..BlockScalars], username, userLabel)] else [])
        && blockCount == |rows|
      ensures Valid()
    {
      var grown := Pending(before) + step;
      BlocksAppend(before, step);
      BlocksOfShort(grown);
      RowsAppend(Blocks(before), Blocks(grown), username, userLabel);
      if |grown| >= BlockScalars {
        assert Rows([grown[..BlockScalars]], username, userLabel) == [RowOf(grown[..BlockScalars], username, userLabel)];
      }
    }

    /** A click is recorded as a sample of its position; button and press state are ignored. */
    method OnClick(x: int, y: int, button: Button, pressed: bool)
      requires Valid()
      modifies this
      ensures Valid()
      ensures MovedTo(Point(x, y))
    {
      if !isCollecting { return; }
      OnMove(x, y);
    }

    /** A scroll is recorded as a sample of its position; the scroll amount is ignored. */
    method OnScroll(x: int, y: int, dx: int, dy: int)
      requires Valid()
      modifies this
      ensures Valid()
      ensures MovedTo(Point(x, y))
    {
      if !isCollecting { return; }
      OnMove(x, y);
    }

    /** Drains at most one block from the front of the buffer into a saved row. */
    method CheckBlockSize()
      modifies this`events, this`rows, this`blockCount, this`statusLog
      ensures old(|events|) < BlockScalars ==>
        events == old(events) && rows == old(rows) && blockCount == old(blockCount) && statusLog == old(statusLog)
      ensures old(|events|) >= BlockScalars ==>
        && events == old(events)[BlockScalars..]
        && rows == old(rows) + [RowOf(old(events)[..BlockScalars], username, userLabel)]
        && blockCount == old(blockCount) + 1
        && statusLog == old(statusLog) + [SavedBlock(blockCount, username)]
    {
      if |events| >= BlockScalars {
        var blockData := events[..BlockScalars];
        events := events[BlockScalars..];
        var rowToSave := Encode(blockData) + [Text(username), Text(userLabel)];
        rows := rows + [rowToSave];
        blockCount := blockCount + 1;
        statusLog := statusLog + [SavedBlock(blockCount, username)];
      }
    }

    /** Starts collecting from `initial`, the pointer position read when collection begins. */
    method Start(initial: Point)
      requires Valid()
      modifies this`isCollecting, this`lastPos, this`statusLog
      ensures Valid()
      ensures isCollecting && lastPos == Some(initial)
      ensures statusLog == old(statusLog) + [Collecting(username)]
    {
      isCollecting := true;
      lastPos := Some(initial);
      statusLog := statusLog + [Collecting(username)];
    }

    /** Stops collecting; the pending buffer is neither saved nor cleared. */
    method Stop()
      requires Valid()
      modifies this`isCollecting, this`statusLog
      ensures Valid()
      ensures !isCollecting
      ensures statusLog == old(statusLog) + [Stopped(outputFilename)]
    {
      isCollecting := false;
      statusLog := statusLog + [Stopped(outputFilename)];
    }
  }

  // ---------------------------------------------------------------------
  // Sessions: a collector driven by a stream of pointer samples
  // ---------------------------------------------------------------------

  /** Delivers the samples of `path` to an active collector, one move event each. */
  method Feed(c: Collector, path: seq<Point>)
    requires c.Valid() && c.isCollecting && c.lastPos.Some?
    modifies c
    ensures c.Valid() && c.isCollecting
    ensures c.lastPos == Some(if path == [] then old(c.lastPos.value) else path[|path| - 1])
    ensures c.recorded == old(c.recorded) + Deltas(old(c.lastPos.value), path)
    ensures |c.counterLog| == |old(c.counterLog)| + |path|
    ensures old(c.statusLog) <= c.statusLog
    ensures path != [] ==> c.counterLog[|c.counterLog| - 1] == (|c.events| / Dimensions, c.blockCount)
  {
    ghost var start := c.lastPos.value;
    var i := 0;
    while i < |path|
      invariant 0 <= i <= |path|
      invariant c.Valid() && c.isCollecting && c.lastPos.Some?
      invariant c.lastPos.value == if i == 0 then start else path[i - 1]
      invariant c.recorded + Deltas(c.lastPos.value, path[i..]) == old(c.recorded) + Deltas(start, path)
      invariant |c.counterLog| == |old(c.counterLog)| + i
      invariant old(c.statusLog) <= c.statusLog
      invariant i > 0 ==> c.counterLog[|c.counterLog| - 1] == (|c.events| / Dimensions, c.blockCount)
    {
      ghost var q := c.lastPos.value;
      ghost var before := c.recorded;
      assert Deltas(q, path[i..]) == Displacement(q, path[i]) + Deltas(path[i], path[i + 1..]) by {
        assert path[i..][1..] == path[i + 1..];
      }
      c.OnMove(path[i].x, path[i].y);
      assert c.recorded == before + Displacement(q, path[i]);
      assert c.recorded + Deltas(path[i], path[i + 1..]) == before + Deltas(q, path[i..]);
      i := i + 1;
    }
    assert path[|path|..] == [];
  }

  /**
   * A whole recording: a new collector is started at `start` and receives the
   * samples of `path`, every one of which moves the pointer. The rows hold
   * |path| / 128 blocks, and the counter callback last reports the pending
   * displacements and the number of saved blocks.
   */
  method RecordMovingSession(username: string, userLabel: string, duration: string, start: Point, path: seq<Point>)
    returns (c: Collector)
    requires AlwaysMoves(start, path)
    ensures c.Valid() && c.isCollecting
    ensures |c.rows| == c.blockCount == |path| / BlockSize
    ensures |c.events| / Dimensions == |path| % BlockSize
    ensures |c.counterLog| == |path|
    ensures path != [] ==> c.counterLog[|c.counterLog| - 1] == (|path| % BlockSize, |path| / BlockSize)
    ensures |c.statusLog| > 0 && c.statusLog[0] == Collecting(username)
  {
    c := new Collector(username, userLabel, duration);
    c.Start(start);
    Feed(c, path);
    assert c.recorded == Deltas(start, path);
    MovingSessionBlocks(start, path);
    RowsLength(Blocks(c.recorded), username, userLabel);
  }

  /** 130 moving samples: one row saved, and the counter's last report is (2, 1). */
  method RecordOneHundredThirtySamples(username: string, userLabel: string, duration: string, start: Point, path: seq<Point>)
    returns (c: Collector)
    requires |path| == 130 && AlwaysMoves(start, path)
    ensures |c.rows| == 1 && |c.counterLog| == 130 && c.counterLog[129] == (2, 1)
  {
    c := RecordMovingSession(username, userLabel, duration, start, path);
  }
}
