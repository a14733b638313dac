/** Cutting the IMU stream into LiDAR frames and propagating the filter over them. */
module ImuPropagation {
  import opened Vectors

  datatype Imu = Imu(stamp: real, acc: V3)

  /** One LiDAR scan: how many points, and the time offset of the last one in milliseconds. */
  datatype Scan = Scan(points: nat, lastCurvature: real)

  datatype Frame = Frame(begin: real, end: real, imu: seq<Imu>)

  ghost predicate Sorted(s: seq<Imu>) { forall i, j :: 0 <= i < j < |s| ==> s[i].stamp <= s[j].stamp }

  ghost function Sum(s: seq<real>): real { if s == [] then 0.0 else Sum(s[..|s| - 1]) + s[|s| - 1] }

  lemma SumOfNone()
    ensures Sum([]) == 0.0
  {
  }

  lemma SumSnoc(s: seq<real>, d: real)
    ensures Sum(s + [d]) == Sum(s) + d
  {
  }

  lemma {:induction false} SumJoin(s: seq<real>, t: seq<real>)
    ensures Sum(s + t) == Sum(s) + Sum(t)
  {
    if t == [] {
      assert s + t == s;
    } else {
      var init := t[..|t| - 1];
      assert s + t == (s + init) + [t[|t| - 1]] && t == init + [t[|t| - 1]];
      SumJoin(s, init);
      SumSnoc(s + init, t[|t| - 1]);
    }
  }

  /** The propagation interval between two successive IMU messages, if the later one is not stale:
      the part of it after the end of the last frame. */
  function Interval(head: real, tail: real, lastEnd: real): seq<real> {
    if tail < lastEnd then [] else [tail - (if head < lastEnd then lastEnd else head)]
  }

  /** The intervals of the forward propagation over a frame's messages, the last known one first. */
  ghost function Intervals(v: seq<Imu>, lastEnd: real): seq<real> {
    if |v| < 2 then []
    else Intervals(v[..|v| - 1], lastEnd) + Interval(v[|v| - 2].stamp, v[|v| - 1].stamp, lastEnd)
  }

  /** The interval from the last message to the end of the frame. */
  function Rest(imuEnd: real, frameEnd: real): real {
    var note := if frameEnd > imuEnd then 1.0 else -1.0;
    note * (frameEnd - imuEnd)
  }

  ghost predicate NonNegative(s: seq<real>) { forall i :: 0 <= i < |s| ==> 0.0 <= s[i] }

  /** Over sorted messages that begin no later than the last frame end, the intervals are non-negative
      and add up to the time from that end to the last message, if it is not stale. */
  lemma {:induction false} IntervalsAddUp(v: seq<Imu>, lastEnd: real)
    requires v != [] && Sorted(v) && v[0].stamp <= lastEnd
    ensures NonNegative(Intervals(v, lastEnd))
    ensures var last := v[|v| - 1].stamp;
      Sum(Intervals(v, lastEnd)) == if last < lastEnd then 0.0 else last - lastEnd
  {
    if |v| == 1 {
      SumOfNone();
    } else {
      hide Sum;
      var init, sofar := v[..|v| - 1], Intervals(v[..|v| - 1], lastEnd);
      IntervalsAddUp(init, lastEnd);
      var head, tail := v[|v| - 2].stamp, v[|v| - 1].stamp;
      if tail < lastEnd {
        assert Intervals(v, lastEnd) == sofar;
      } else {
        var d := tail - (if head < lastEnd then lastEnd else head);
        assert Intervals(v, lastEnd) == sofar + [d];
        SumSnoc(sofar, d);
      }
    }
  }

  /** One undistorted frame propagates the filter by exactly the time between the two frame ends
      precisely when its last message lies between them. */
  lemma FrameConserved(v: seq<Imu>, lastEnd: real, frameEnd: real)
    requires v != [] && Sorted(v) && v[0].stamp <= lastEnd
    ensures var last := v[|v| - 1].stamp;
      Sum(Intervals(v, lastEnd) + [Rest(last, frameEnd)]) == frameEnd - lastEnd <==> lastEnd <= last <= frameEnd
  {
    IntervalsAddUp(v, lastEnd);
    SumSnoc(Intervals(v, lastEnd), Rest(v[|v| - 1].stamp, frameEnd));
  }

  const MAX_INI_COUNT := 100

  ghost function SumAcc(s: seq<Imu>): V3 {
    if s == [] then ZERO else SumAcc(s[..|s| - 1]).Plus(s[|s| - 1].acc)
  }

  class ImuProcess {
    var lastImu: Imu
    var lastLidarEndTime: real
    var bFirstFrame: bool
    var imuNeedInit: bool
    var initIterNum: nat
    var meanAcc: V3
    /** Every interval handed to the filter, in order. */
    var predicts: seq<real>
    /** The messages averaged so far. */
    ghost var averaged: seq<Imu>
    /** Whether a frame has been undistorted; how many intervals up to the end of the first one, and that end. */
    ghost var started: bool
    ghost var base: nat
    ghost var firstEnd: real

    /** lastLidarEndTime is not initialised by the original; any value stands for it. */
    constructor (uninitialised: real)
      ensures !started && MeanOk() && InitOk() && averaged == [] && predicts == []
    {
      lastImu := Imu(0.0, ZERO);
      lastLidarEndTime := uninitialised;
      bFirstFrame, imuNeedInit, initIterNum := true, true, 1;
      meanAcc := V3(0.0, 0.0, -1.0);
      predicts, averaged, started, base, firstEnd := [], [], false, 0, 0.0;
    }

    /** The running mean is the mean of the messages averaged so far. */
    ghost predicate MeanOk()
      reads this`bFirstFrame, this`initIterNum, this`meanAcc, this`averaged
    {
      && initIterNum == |averaged| + 1
      && (bFirstFrame ==> averaged == [])
      && (averaged != [] ==> meanAcc.Scale(|averaged| as real) == SumAcc(averaged))
    }

    /** Initialisation lasts until a hundred messages have been averaged. */
    ghost predicate InitOk()
      reads this`imuNeedInit, this`averaged, this`started
    {
      (imuNeedInit <==> |averaged| < 100) && (started ==> !imuNeedInit)
    }

    /** Since the end of the first undistorted frame the filter has been propagated by non-negative
        intervals that add up to the time to the end of the last one. */
    ghost predicate TimeOk()
      reads this`started, this`base, this`firstEnd, this`predicts, this`lastLidarEndTime, this`lastImu
    {
      started ==>
        && base <= |predicts|
        && NonNegative(predicts[base..])
        && Sum(predicts[base..]) == lastLidarEndTime - firstEnd
        && lastImu.stamp <= lastLidarEndTime
    }

    /** Averages the accelerations of the initial frames message by message. */
    method ImuInit(imu: seq<Imu>)
      requires MeanOk() && imu != []
      modifies this`lastImu, this`bFirstFrame, this`initIterNum, this`meanAcc, this`averaged
      ensures MeanOk() && averaged == old(averaged) + imu && !bFirstFrame
      ensures meanAcc.Scale(|averaged| as real) == SumAcc(averaged)
      ensures lastImu == imu[|imu| - 1]
    {
      hide V3.Scale, V3.Plus, V3.Minus, SumAcc;
      if bFirstFrame {
        initIterNum := 1;
        bFirstFrame := false;
        meanAcc := imu[0].acc;
      }
      for i := 0 to |imu|
        invariant !bFirstFrame && MeanOk() && averaged == old(averaged) + imu[..i]
      {
        var curAcc := imu[i].acc;
        ghost var before := meanAcc;
        var n := initIterNum as real;
        meanAcc := meanAcc.Plus(curAcc.Minus(meanAcc).Scale(1.0 / n));
        MeanStep(averaged, imu[i], before, n);
        averaged := averaged + [imu[i]];
        initIterNum := initIterNum + 1;
        assert imu[..i + 1] == imu[..i] + [imu[i]];
      }
      assert imu[..|imu|] == imu;
      lastImu := imu[|imu| - 1];
    }

    /** Propagates the filter from message to message, the last known one first. */
    method ForwardPropagation(vImu: seq<Imu>)
      requires vImu != []
      modifies this`predicts
      ensures predicts == old(predicts) + Intervals(vImu, lastLidarEndTime)
    {
      for i := 0 to |vImu| - 1
        invariant predicts == old(predicts) + Intervals(vImu[..i + 1], lastLidarEndTime)
      {
        var headStamp, tailStamp := vImu[i].stamp, vImu[i + 1].stamp;
        assert vImu[..i + 2][..i + 1] == vImu[..i + 1];
        if tailStamp >= lastLidarEndTime {
          var dt := if headStamp < lastLidarEndTime then tailStamp - lastLidarEndTime else tailStamp - headStamp;
          predicts := predicts + [dt];
        }
      }
      assert vImu[..|vImu|] == vImu;
    }

    /** Propagates the filter over the frame's messages and on to the end of the frame. */
    method UndistortPcl(meas: Frame)
      requires meas.imu != []
      modifies this`lastImu, this`lastLidarEndTime, this`predicts, this`started, this`base, this`firstEnd
      ensures lastImu == meas.imu[|meas.imu| - 1] && lastLidarEndTime == meas.end && started
      ensures predicts == old(predicts) + Intervals([old(lastImu)] + meas.imu, old(lastLidarEndTime))
                          + [Rest(lastImu.stamp, meas.end)]
      ensures if old(started) then base == old(base) && firstEnd == old(firstEnd)
              else base == |predicts| && firstEnd == meas.end
    {
      var vImu := [lastImu] + meas.imu;
      ForwardPropagation(vImu);
      var imuEndTime := vImu[|vImu| - 1].stamp;
      predicts := predicts + [Rest(imuEndTime, meas.end)];
      lastImu := meas.imu[|meas.imu| - 1];
      lastLidarEndTime := meas.end;
      if !started {
        started, base, firstEnd := true, |predicts|, meas.end;
      }
    }

    /** The frame's messages are sorted and lie between the last frame end and its own. */
    ghost predicate InOrder(meas: Frame)
      reads this`started, this`lastLidarEndTime
    {
      && Sorted(meas.imu)
      && (forall m :: m in meas.imu ==> m.stamp <= meas.end)
      && (started ==> forall m :: m in meas.imu ==> lastLidarEndTime <= m.stamp)
    }

    /** Undistorting a frame in order keeps the time account. */
    method UndistortFrame(meas: Frame)
      requires meas.imu != []
      modifies this`lastImu, this`lastLidarEndTime, this`predicts, this`started, this`base, this`firstEnd
      ensures started && lastLidarEndTime == meas.end && old(predicts) < predicts
      ensures old(TimeOk() && InOrder(meas)) ==> TimeOk()
      ensures !old(started) ==> base == |predicts| && firstEnd == meas.end
      ensures old(started) ==> base == old(base) && firstEnd == old(firstEnd)
    {
      hide Intervals, Sum, Rest;
      if TimeOk() && InOrder(meas) && started {
        FrameKeepsTime(lastImu, meas, lastLidarEndTime, firstEnd, predicts[base..]);
      } else {
        SumOfNone();
      }
      UndistortPcl(meas);
      if old(started) && old(TimeOk()) {
        assert predicts[base..] == old(predicts[base..]) + Intervals([old(lastImu)] + meas.imu, old(lastLidarEndTime))
                                   + [Rest(lastImu.stamp, meas.end)];
      } else if !old(started) {
        assert predicts[base..] == [];
      }
    }

    /** Frames without messages are skipped; the first ones only feed the averages, and once a hundred messages
        have been averaged every frame is undistorted. */
    method Process(meas: Frame)
      requires MeanOk() && InitOk()
      modifies this
      ensures MeanOk() && InitOk()
      ensures old(TimeOk() && InOrder(meas)) ==> TimeOk()
      ensures old(predicts) <= predicts
      ensures !old(started) && started ==> base == |predicts| && firstEnd == meas.end
      ensures averaged == if old(|averaged|) < 100 then old(averaged) + meas.imu else old(averaged)
      ensures if meas.imu == [] || old(|averaged|) < 100
              then started == old(started) && lastLidarEndTime == old(lastLidarEndTime) && predicts == old(predicts)
              else started && lastLidarEndTime == meas.end && old(predicts) < predicts
      ensures old(started) ==> base == old(base) && firstEnd == old(firstEnd)
    {
      if meas.imu == [] {
        return;
      }
      if imuNeedInit {
        ImuInit(meas.imu);
        if initIterNum > MAX_INI_COUNT {
          imuNeedInit := false;
        }
        return;
      }
      UndistortFrame(meas);
    }
  }

  /** A frame whose messages all lie between the last frame end and its own keeps the time account. */
  lemma FrameKeepsTime(lastImu: Imu, meas: Frame, lastEnd: real, firstEnd: real, sofar: seq<real>)
    requires meas.imu != [] && Sorted(meas.imu) && lastImu.stamp <= lastEnd
    requires forall m :: m in meas.imu ==> lastEnd <= m.stamp <= meas.end
    requires NonNegative(sofar) && Sum(sofar) == lastEnd - firstEnd
    ensures var v := [lastImu] + meas.imu;
      var after := sofar + Intervals(v, lastEnd) + [Rest(v[|v| - 1].stamp, meas.end)];
      NonNegative(after) && Sum(after) == meas.end - firstEnd
  {
    hide Intervals, Sum, Rest;
    var v := [lastImu] + meas.imu;
    assert forall i :: 0 < i < |v| ==> v[i] == meas.imu[i - 1] && v[i] in meas.imu;
    var steps, rest := Intervals(v, lastEnd), Rest(v[|v| - 1].stamp, meas.end);
    FrameConserved(v, lastEnd, meas.end);
    IntervalsAddUp(v, lastEnd);
    RestNonNegative(v[|v| - 1].stamp, meas.end);
    assert sofar + steps + [rest] == sofar + (steps + [rest]);
    SumJoin(sofar, steps + [rest]);
  }

  lemma RestNonNegative(imuEnd: real, frameEnd: real)
    ensures 0.0 <= Rest(imuEnd, frameEnd)
  {
  }

  /** The update of the running mean by the n-th message. */
  lemma MeanStep(averaged: seq<Imu>, m: Imu, mean: V3, n: real)
    requires n == |averaged| as real + 1.0
    requires averaged != [] ==> mean.Scale(|averaged| as real) == SumAcc(averaged)
    ensures mean.Plus(m.acc.Minus(mean).Scale(1.0 / n)).Scale(n) == SumAcc(averaged + [m])
  {
    assert (averaged + [m])[..|averaged|] == averaged;
    AxisMeanStep(mean.x, m.acc.x, n);
    AxisMeanStep(mean.y, m.acc.y, n);
    AxisMeanStep(mean.z, m.acc.z, n);
  }

  lemma AxisMeanStep(mean: real, cur: real, n: real)
    requires 1.0 <= n
    ensures n * (mean + 1.0 / n * (cur - mean)) == (n - 1.0) * mean + cur
  {
  }
}
