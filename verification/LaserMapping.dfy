/** The buffers of the mapping node, the cut of the IMU stream at each frame end, and the frame loop. */
module LaserMappingNode {
  import opened ImuPropagation

  /** The IMU stream as a value: accepted and handed-over messages, the buffer, the frame ends so far
      and the newest stamp. */
  datatype Stream = Stream(accepted: seq<Imu>, handed: seq<Imu>, buffer: seq<Imu>, ends: seq<real>, newest: real) {

    ghost predicate Ok() {
      && accepted == handed + buffer
      && Sorted(accepted)
      && (forall m :: m in accepted ==> m.stamp <= newest)
      && (forall e, m :: e in ends && m in buffer ==> e <= m.stamp)
      && (forall e :: e in ends ==> e <= newest)
    }

    /** Cutting the buffer at a frame end that the stream has reached keeps the stream in order. */
    lemma CutKeepsOk(taken: seq<Imu>, rest: seq<Imu>, end: real)
      requires Ok() && buffer == taken + rest && end <= newest
      requires forall m :: m in taken ==> m.stamp <= end
      requires rest != [] ==> end <= rest[0].stamp
      ensures Stream(accepted, handed + taken, rest, ends + [end], newest).Ok()
      ensures Sorted(taken) && (forall m :: m in rest ==> end <= m.stamp)
      ensures forall e, m :: e in ends && m in taken ==> e <= m.stamp
    {
      assert accepted == handed + taken + rest;
      forall i, j | 0 <= i < j < |rest|
        ensures rest[i].stamp <= rest[j].stamp
      {
        assert accepted[|handed| + |taken| + i] == rest[i] && accepted[|handed| + |taken| + j] == rest[j];
      }
      forall i, j | 0 <= i < j < |taken|
        ensures taken[i].stamp <= taken[j].stamp
      {
        assert accepted[|handed| + i] == taken[i] && accepted[|handed| + j] == taken[j];
      }
    }

    lemma SortedBuffer()
      requires Ok()
      ensures Sorted(buffer)
    {
      forall i, j | 0 <= i < j < |buffer|
        ensures buffer[i].stamp <= buffer[j].stamp
      {
        assert accepted[|handed| + i] == buffer[i] && accepted[|handed| + j] == buffer[j];
      }
    }
  }

  lemma EmptyStreamOk()
    ensures Stream([], [], [], [], -1.0).Ok()
  {
  }

  lemma NothingTimed(process: ImuProcess)
    requires !process.started
    ensures process.TimeOk()
  {
  }

  class LaserMapping {
    const imuProcess: ImuProcess
    var lidarBuffer: seq<Scan>
    var timeBuffer: seq<real>
    var imuBuffer: seq<Imu>
    var lastTimestampLidar: real
    var lastTimestampImu: real
    var isFirstLidar: bool
    var lidarPushed: bool
    var lidarBegTime: real
    var lidarEndTime: real
    var lidarMeanScantime: real
    var scanNum: nat
    var flgFirstScan: bool
    var measures: Frame
    /** Whether an IMU message older than its predecessor has cleared the buffer. */
    ghost var loopedBack: bool
    /** All IMU messages accepted, and those handed to a frame, in order. */
    ghost var accepted: seq<Imu>
    ghost var handed: seq<Imu>
    /** The end of every frame cut so far, and how many messages were handed to the first one, which is dropped. */
    ghost var ends: seq<real>
    ghost var skipped: nat

    constructor (process: ImuProcess)
      requires process.MeanOk() && process.InitOk() && !process.started && process.averaged == []
      ensures Valid() && imuProcess == process && !loopedBack && flgFirstScan && ends == [] && handed == []
    {
      hide Stream.Ok, ImuProcess.MeanOk, ImuProcess.InitOk, ImuProcess.TimeOk, InitFed;
      imuProcess := process;
      lidarBuffer, timeBuffer, imuBuffer := [], [], [];
      lastTimestampLidar, lastTimestampImu := 0.0, -1.0;
      isFirstLidar, lidarPushed, flgFirstScan := true, false, true;
      lidarBegTime, lidarEndTime, lidarMeanScantime, scanNum := 0.0, 0.0, 0.0, 0;
      measures := Frame(0.0, 0.0, []);
      loopedBack, accepted, handed, ends, skipped := false, [], [], [], 0;
      new;
      EmptyStreamOk();
      NothingTimed(process);
      NothingFed();
    }

    lemma NothingFed()
      requires handed == [] && skipped == 0 && imuProcess.averaged == []
      ensures InitFed()
    {
    }

    /** Without loop-back no message is lost, doubled or reordered, and what is buffered or still to
        come is no older than any frame end. */
    ghost predicate StreamOk()
      reads this`imuBuffer, this`lastTimestampImu, this`accepted, this`handed, this`ends
    {
      Stream(accepted, handed, imuBuffer, ends, lastTimestampImu).Ok()
    }

    /** What has been averaged are the messages handed over since the dropped frame, all of them while they are
        fewer than a hundred. */
    ghost predicate InitFed()
      reads this`flgFirstScan, this`handed, this`skipped, imuProcess`averaged
    {
      && skipped <= |handed| && imuProcess.averaged <= handed[skipped..]
      && (|imuProcess.averaged| < 100 ==> imuProcess.averaged == handed[skipped..])
      && (flgFirstScan ==> handed == [] && imuProcess.averaged == [])
    }

    ghost predicate Valid()
      reads this, imuProcess
    {
      BuffersOk() && InitFed()
    }

    ghost predicate BuffersOk()
      reads this, imuProcess
    {
      && |lidarBuffer| <= |timeBuffer|
      && imuProcess.MeanOk() && imuProcess.InitOk()
      && (!loopedBack ==> StreamOk() && imuProcess.TimeOk())
      && (!loopedBack && imuProcess.started ==> imuProcess.lastLidarEndTime in ends)
    }

    /** A scan arrives; one older than its predecessor first empties the scan buffer, but not the
        buffer of begin times. */
    method LidarCallback(curTime: real, scan: Scan)
      requires Valid()
      modifies this`lidarBuffer, this`timeBuffer, this`isFirstLidar, this`lastTimestampLidar
      ensures Valid()
      ensures var dropped := !old(isFirstLidar) && curTime < old(lastTimestampLidar);
        && lidarBuffer == (if dropped then [] else old(lidarBuffer)) + [scan]
        && timeBuffer == old(timeBuffer) + [curTime]
      ensures old(|lidarBuffer| == |timeBuffer|) ==>
        (|lidarBuffer| == |timeBuffer| <==>
         old(isFirstLidar) || old(lastTimestampLidar) <= curTime || old(lidarBuffer) == [])
    {
      if !isFirstLidar && curTime < lastTimestampLidar {
        lidarBuffer := [];
      }
      isFirstLidar := false;
      lidarBuffer := lidarBuffer + [scan];
      timeBuffer := timeBuffer + [curTime];
      lastTimestampLidar := curTime;
    }

    /** An IMU message arrives, its stamp already corrected to the LiDAR clock. */
    method ImuCallback(msg: Imu)
      requires Valid()
      modifies this`imuBuffer, this`lastTimestampImu, this`loopedBack, this`accepted
      ensures Valid()
      ensures loopedBack <==> old(loopedBack) || (msg.stamp < old(lastTimestampImu))
      ensures imuBuffer == (if msg.stamp < old(lastTimestampImu) then [] else old(imuBuffer)) + [msg]
    {
      if msg.stamp < lastTimestampImu {
        imuBuffer := [];
        loopedBack := true;
      }
      lastTimestampImu := msg.stamp;
      imuBuffer := imuBuffer + [msg];
      accepted := accepted + [msg];
      assert !loopedBack ==> accepted == handed + imuBuffer;
    }

    /** Takes the messages of the frame that ends at lidarEndTime off the buffer. */
    method CutImu() returns (taken: seq<Imu>)
      requires imuBuffer != []
      modifies this`imuBuffer
      ensures old(imuBuffer) == taken + imuBuffer
      ensures forall m :: m in taken ==> m.stamp <= lidarEndTime
      ensures imuBuffer != [] && Sorted(old(imuBuffer)) ==> lidarEndTime <= imuBuffer[0].stamp
    {
      var imuTime := imuBuffer[0].stamp;
      taken := [];
      while imuBuffer != [] && imuTime < lidarEndTime
        invariant old(imuBuffer) == taken + imuBuffer
        invariant forall m :: m in taken ==> m.stamp <= lidarEndTime
        invariant imuTime == if taken == [] then old(imuBuffer)[0].stamp else taken[|taken| - 1].stamp
        decreases |imuBuffer|
      {
        imuTime := imuBuffer[0].stamp;
        if imuTime > lidarEndTime {
          break;
        }
        taken := taken + [imuBuffer[0]];
        imuBuffer := imuBuffer[1..];
      }
      assert imuBuffer != [] ==> old(imuBuffer)[|taken|] == imuBuffer[0];
      assert taken != [] ==> old(imuBuffer)[|taken| - 1] == taken[|taken| - 1];
    }

    /** When the frame of the scan at the head of the buffer ends. */
    ghost function NextEnd(): real
      requires lidarBuffer != [] && timeBuffer != []
      reads this`lidarBuffer, this`timeBuffer, this`lidarPushed, this`lidarEndTime, this`lidarMeanScantime
    {
      var scan := lidarBuffer[0];
      if lidarPushed then lidarEndTime
      else if scan.points <= 1 || scan.lastCurvature / 1000.0 < 0.5 * lidarMeanScantime then
        timeBuffer[0] + lidarMeanScantime
      else timeBuffer[0] + scan.lastCurvature / 1000.0
    }

    /** A scan and a message wait, and the stream of messages has reached the end of the scan's frame. */
    ghost predicate FrameReady()
      requires |lidarBuffer| <= |timeBuffer|
      reads this`lidarBuffer, this`timeBuffer, this`lidarPushed, this`lidarEndTime, this`lidarMeanScantime
      reads this`imuBuffer, this`lastTimestampImu
    {
      lidarBuffer != [] && imuBuffer != [] && NextEnd() <= lastTimestampImu
    }

    /** The running mean of the offsets of complete scans. */
    lemma MeanOffset(mean: real, x: real, n: nat, after: real)
      requires 0 < n && after == mean + (x - mean) / n as real
      ensures after * n as real == mean * (n - 1) as real + x
    {
      var k := n as real;
      var q := (x - mean) / k;
      assert q * k == x - mean;
      assert (mean + q) * k == mean * k + q * k;
      assert (n - 1) as real == k - 1.0;
    }

    /** Fixes the frame of the scan at the head of the buffer. */
    method PushScan()
      requires lidarBuffer != [] && timeBuffer != []
      modifies this`lidarBegTime, this`lidarEndTime, this`lidarMeanScantime, this`scanNum, this`lidarPushed
      ensures lidarPushed && lidarBegTime == timeBuffer[0]
      ensures var scan := lidarBuffer[0]; var offset := scan.lastCurvature / 1000.0;
        if scan.points <= 1 || offset < 0.5 * old(lidarMeanScantime) then
          && lidarEndTime == lidarBegTime + old(lidarMeanScantime)
          && lidarMeanScantime == old(lidarMeanScantime) && scanNum == old(scanNum)
        else
          && lidarEndTime == lidarBegTime + offset && scanNum == old(scanNum) + 1
          && lidarMeanScantime * scanNum as real == old(lidarMeanScantime) * old(scanNum) as real + offset
    {
      var scan := lidarBuffer[0];
      lidarBegTime := timeBuffer[0];
      if scan.points <= 1 {
        lidarEndTime := lidarBegTime + lidarMeanScantime;
      } else if scan.lastCurvature / 1000.0 < 0.5 * lidarMeanScantime {
        lidarEndTime := lidarBegTime + lidarMeanScantime;
      } else {
        scanNum := scanNum + 1;
        lidarEndTime := lidarBegTime + scan.lastCurvature / 1000.0;
        ghost var mean := lidarMeanScantime;
        lidarMeanScantime := lidarMeanScantime + (scan.lastCurvature / 1000.0 - lidarMeanScantime) / scanNum as real;
        MeanOffset(mean, scan.lastCurvature / 1000.0, scanNum, lidarMeanScantime);
      }
      lidarPushed := true;
    }

    /** The frame just cut: its messages are those taken off the buffer, none past its end; without
        loop-back they are sorted, no older than any earlier frame end, and what stays is no older than this one. */
    twostate predicate FrameCut()
      reads this`measures, this`imuBuffer, this`handed, this`ends, this`loopedBack
    {
      && ends == old(ends) + [measures.end] && old(imuBuffer) == measures.imu + imuBuffer
      && handed == old(handed) + measures.imu
      && (forall m :: m in measures.imu ==> m.stamp <= measures.end)
      && (!loopedBack ==>
            && Sorted(measures.imu)
            && (forall m :: m in imuBuffer ==> measures.end <= m.stamp)
            && (forall e, m :: e in old(ends) && m in measures.imu ==> e <= m.stamp))
    }

    /** Takes the frame's messages off the buffer. */
    method CompleteFrame()
      requires BuffersOk() && lidarBuffer != [] && imuBuffer != [] && lidarEndTime <= lastTimestampImu
      modifies this`lidarBuffer, this`timeBuffer, this`imuBuffer, this`lidarPushed, this`measures, this`handed,
        this`ends
      ensures FrameCut() && measures.begin == lidarBegTime && measures.end == lidarEndTime && !lidarPushed
      ensures BuffersOk()
      ensures lidarBuffer == old(lidarBuffer)[1..] && timeBuffer == old(timeBuffer)[1..]
    {
      hide Stream.Ok, Sorted, ImuProcess.TimeOk, ImuProcess.MeanOk, ImuProcess.InitOk;
      ghost var stream := Stream(accepted, handed, imuBuffer, ends, lastTimestampImu);
      if !loopedBack {
        stream.SortedBuffer();
      }
      var taken := CutImu();
      if !loopedBack {
        stream.CutKeepsOk(taken, imuBuffer, lidarEndTime);
      }
      measures := Frame(lidarBegTime, lidarEndTime, taken);
      lidarBuffer := lidarBuffer[1..];
      timeBuffer := timeBuffer[1..];
      lidarPushed := false;
      handed := handed + taken;
      ends := ends + [lidarEndTime];
    }

    /** Completes a frame as soon as the IMU stream has reached its end. */
    method SyncPackages() returns (ok: bool)
      requires BuffersOk()
      modifies this`lidarBuffer, this`timeBuffer, this`imuBuffer, this`lidarPushed, this`lidarBegTime, this`lidarEndTime
      modifies this`lidarMeanScantime, this`scanNum, this`measures, this`handed, this`ends
      ensures BuffersOk()
      ensures ok <==> old(FrameReady())
      ensures !ok ==>
        && imuBuffer == old(imuBuffer) && handed == old(handed) && ends == old(ends) && measures == old(measures)
        && lidarBuffer == old(lidarBuffer) && timeBuffer == old(timeBuffer)
        && (lidarBuffer != [] ==> NextEnd() == old(NextEnd()))
      ensures ok ==>
        && FrameCut() && measures.end == old(NextEnd()) && !lidarPushed
        && measures.begin == (if old(lidarPushed) then old(lidarBegTime) else old(timeBuffer[0]))
        && lidarBuffer == old(lidarBuffer)[1..] && timeBuffer == old(timeBuffer)[1..]
    {
      hide Stream.Ok, Sorted;
      if lidarBuffer == [] || imuBuffer == [] {
        return false;
      }
      if !lidarPushed {
        PushScan();
      }
      if lastTimestampImu < lidarEndTime {
        return false;
      }
      CompleteFrame();
      ok := true;
    }

    lemma MoreFed(averaged: seq<Imu>, given: seq<Imu>, from: nat, imu: seq<Imu>)
      requires from <= |given| && averaged <= given[from..] && (|averaged| < 100 ==> averaged == given[from..])
      ensures (|averaged| < 100 <==> |given| - from < 100) && averaged <= (given + imu)[from..]
      ensures |averaged| < 100 ==> averaged + imu == (given + imu)[from..]
    {
      assert (given + imu)[from..] == given[from..] + imu;
    }

    /** Drops the first complete frame and processes each later one. The messages handed over before it are given. */
    method UseFrame(ghost given: seq<Imu>)
      requires BuffersOk() && handed == given + measures.imu && skipped <= |given|
      requires imuProcess.averaged <= given[skipped..]
      requires |imuProcess.averaged| < 100 ==> imuProcess.averaged == given[skipped..]
      requires flgFirstScan ==> given == [] && imuProcess.averaged == []
      requires !loopedBack ==> imuProcess.InOrder(measures) && measures.end in ends
      modifies this`flgFirstScan, this`skipped, imuProcess
      ensures Valid() && !flgFirstScan
      ensures skipped == if old(flgFirstScan) then |handed| else old(skipped)
      ensures old(imuProcess.predicts) <= imuProcess.predicts
      ensures old(imuProcess.started) ==>
        && imuProcess.started && imuProcess.base == old(imuProcess.base)
        && imuProcess.firstEnd == old(imuProcess.firstEnd)
      ensures !old(imuProcess.started) && imuProcess.started ==>
        imuProcess.base == |imuProcess.predicts| && imuProcess.firstEnd == measures.end
      ensures if old(flgFirstScan) || measures.imu == [] || |given| - old(skipped) < 100
              then imuProcess.started == old(imuProcess.started) && imuProcess.predicts == old(imuProcess.predicts)
              else imuProcess.started && imuProcess.lastLidarEndTime == measures.end
                   && old(imuProcess.predicts) < imuProcess.predicts
    {
      hide Stream.Ok, Sorted, Sum, NonNegative, ImuProcess.TimeOk, ImuProcess.InOrder, ImuProcess.MeanOk;
      if flgFirstScan {
        flgFirstScan := false;
        skipped := |handed|;
        return;
      }
      MoreFed(imuProcess.averaged, given, skipped, measures.imu);
      imuProcess.Process(measures);
    }

    /** A frame just cut is in order for the filter. */
    twostate lemma CutIsInOrder()
      requires old(BuffersOk()) && FrameCut() && loopedBack == old(loopedBack) && unchanged(imuProcess)
      ensures handed == old(handed) + measures.imu && ends == old(ends) + [measures.end]
      ensures !loopedBack ==> imuProcess.InOrder(measures) && measures.end in ends
    {
    }

    /** One tick of the node: a complete frame is cut as soon as the messages reach its end; the first one is
        dropped, and each later one is undistorted once a hundred messages have been handed over since. */
    method TimerCallback()
      requires Valid()
      modifies this, imuProcess
      ensures Valid() && loopedBack == old(loopedBack)
      ensures old(imuProcess.predicts) <= imuProcess.predicts
      ensures old(imuProcess.started) ==>
        && imuProcess.started && imuProcess.base == old(imuProcess.base)
        && imuProcess.firstEnd == old(imuProcess.firstEnd)
      ensures !old(imuProcess.started) && imuProcess.started ==>
        imuProcess.base == |imuProcess.predicts| && imuProcess.firstEnd == measures.end
      ensures ends == if old(FrameReady()) then old(ends) + [old(NextEnd())] else old(ends)
      ensures old(FrameReady()) ==> measures.end == old(NextEnd())
      ensures flgFirstScan == (old(flgFirstScan) && !old(FrameReady()))
      ensures skipped == if old(flgFirstScan) && old(FrameReady()) then |handed| else old(skipped)
      ensures if !old(FrameReady()) || old(flgFirstScan) || measures.imu == [] || old(|handed| - skipped) < 100
              then imuProcess.started == old(imuProcess.started) && imuProcess.predicts == old(imuProcess.predicts)
              else imuProcess.started && imuProcess.lastLidarEndTime == measures.end
                   && old(imuProcess.predicts) < imuProcess.predicts
    {
      hide BuffersOk, FrameCut, FrameReady, NextEnd, ImuProcess.InOrder;
      var ok := SyncPackages();
      if ok {
        CutIsInOrder();
        UseFrame(old(handed));
      }
    }
  }
}
