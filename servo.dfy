/** The dead-zone, fixed-step controller of `adjust_servo_angles`
    (tracking_motors.py:38-67) as pure functions.

    Angles are integer tenths of a degree, so the step of 0.3 degrees is 3 and
    the servo range [0, 180] degrees is [0, 1800]; the start pose 120/95 degrees
    is 1200/950. */
module Servo {
  const ImageWidth: int := 640
  const ImageHeight: int := 360
  const CenterX: int := ImageWidth / 2
  const CenterY: int := ImageHeight / 2
  const DeadzoneWidth: int := 120
  const DeadzoneHeight: int := 30
  const DeadzoneLeft: int := CenterX - DeadzoneWidth / 2
  const DeadzoneRight: int := CenterX + DeadzoneWidth / 2
  const DeadzoneTop: int := CenterY - DeadzoneHeight / 2
  const DeadzoneBottom: int := CenterY + DeadzoneHeight / 2

  /** 0.3 degrees. */
  const Step: int := 3
  /** 180 degrees. */
  const MaxAngle: int := 1800
  const InitialVertical: int := 1200
  const InitialHorizontal: int := 950

  /** `kit.servo[0]` moves the camera up and down, `kit.servo[1]` left and right. */
  const VerticalChannel: nat := 0
  const HorizontalChannel: nat := 1

  predicate InRange(angle: int) {
    0 <= angle <= MaxAngle
  }

  datatype Servos = Servos(vertical: int, horizontal: int)

  predicate ServosInRange(s: Servos) {
    InRange(s.vertical) && InRange(s.horizontal)
  }

  /** One `kit.servo[channel].angle = angle` command. */
  datatype ServoWrite = ServoWrite(channel: nat, angle: int)

  /** A target position in pixels. */
  datatype Target = Target(x: int, y: int)

  /** One axis: a target inside the inclusive dead zone [low, high] leaves the angle
      alone; outside it the angle moves one step, up when the target lies beyond
      `high` and down when it lies before `low`, and a step that would leave
      [0, 180] degrees is not taken at all. */
  function AxisStep(angle: int, target: int, center: int, low: int, high: int): (r: int)
    requires low <= center <= high
    ensures low <= target <= high ==> r == angle
    ensures high < target ==> r == if InRange(angle + Step) then angle + Step else angle
    ensures target < low ==> r == if InRange(angle - Step) then angle - Step else angle
    ensures InRange(angle) ==> InRange(r)
    ensures r != angle ==> InRange(r)
    ensures angle - Step <= r <= angle + Step
  {
    if target < low || target > high then
      var adjustment := if target - center > 0 then Step else -Step;
      var next := angle + adjustment;
      if 0 <= next <= MaxAngle then next else angle
    else angle
  }

  /** Lines 52-58: the dead zone is 260 <= x <= 380; right of it the pan angle grows. */
  function HorizontalStep(angle: int, targetX: int): (r: int)
    ensures 260 <= targetX <= 380 ==> r == angle
    ensures 380 < targetX ==> r == if angle + 3 <= 1800 && 0 <= angle + 3 then angle + 3 else angle
    ensures targetX < 260 ==> r == if 0 <= angle - 3 && angle - 3 <= 1800 then angle - 3 else angle
  {
    AxisStep(angle, targetX, CenterX, DeadzoneLeft, DeadzoneRight)
  }

  /** Lines 61-67: the dead zone is 165 <= y <= 195; below it (larger y) the tilt angle grows. */
  function VerticalStep(angle: int, targetY: int): (r: int)
    ensures 165 <= targetY <= 195 ==> r == angle
    ensures 195 < targetY ==> r == if angle + 3 <= 1800 && 0 <= angle + 3 then angle + 3 else angle
    ensures targetY < 165 ==> r == if 0 <= angle - 3 && angle - 3 <= 1800 then angle - 3 else angle
  {
    AxisStep(angle, targetY, CenterY, DeadzoneTop, DeadzoneBottom)
  }

  /** `adjust_servo_angles(target_x, target_y)`: each axis moves by at most one
      step, the pan only by `target_x` and the tilt only by `target_y`. */
  function Adjust(s: Servos, t: Target): (r: Servos)
    ensures r.horizontal == HorizontalStep(s.horizontal, t.x)
    ensures r.vertical == VerticalStep(s.vertical, t.y)
    ensures ServosInRange(s) ==> ServosInRange(r)
    ensures -Step <= r.horizontal - s.horizontal <= Step && -Step <= r.vertical - s.vertical <= Step
  {
    Servos(VerticalStep(s.vertical, t.y), HorizontalStep(s.horizontal, t.x))
  }

  /** The servo commands one call issues: the pan first, then the tilt, each only
      when that axis moved. */
  function Commands(s: Servos, t: Target): (w: seq<ServoWrite>)
    ensures |w| <= 2
    ensures (exists i :: 0 <= i < |w| && w[i].channel == HorizontalChannel) <==> Adjust(s, t).horizontal != s.horizontal
    ensures (exists i :: 0 <= i < |w| && w[i].channel == VerticalChannel) <==> Adjust(s, t).vertical != s.vertical
    ensures forall i :: 0 <= i < |w| ==>
      && (w[i].channel == HorizontalChannel || w[i].channel == VerticalChannel)
      && w[i].angle == if w[i].channel == HorizontalChannel then Adjust(s, t).horizontal else Adjust(s, t).vertical
    ensures |w| == 2 ==> w[0].channel == HorizontalChannel && w[1].channel == VerticalChannel
    ensures forall i :: 0 <= i < |w| ==> InRange(w[i].angle)
    ensures DeadzoneLeft <= t.x <= DeadzoneRight && DeadzoneTop <= t.y <= DeadzoneBottom ==> w == []
  {
    var r := Adjust(s, t);
    var pan := if r.horizontal != s.horizontal then [ServoWrite(HorizontalChannel, r.horizontal)] else [];
    var tilt := if r.vertical != s.vertical then [ServoWrite(VerticalChannel, r.vertical)] else [];
    var w := pan + tilt;
    assert forall i :: 0 <= i < |w| ==> w[i] == if i < |pan| then pan[i] else tilt[i - |pan|];
    assert r.horizontal != s.horizontal ==> w[0].channel == HorizontalChannel;
    assert r.vertical != s.vertical ==> w[|w| - 1].channel == VerticalChannel;
    w
  }

  /** The controller driven by a sequence of targets, in order. */
  function Run(s: Servos, ts: seq<Target>): Servos
    decreases |ts|
  {
    if ts == [] then s else Run(Adjust(s, ts[0]), ts[1..])
  }

  /** The commands a sequence of targets issues, in order. */
  function RunCommands(s: Servos, ts: seq<Target>): seq<ServoWrite>
    decreases |ts|
  {
    if ts == [] then [] else Commands(s, ts[0]) + RunCommands(Adjust(s, ts[0]), ts[1..])
  }

  /** Starting in range, the angles stay in [0, 180] degrees, and so does every command. */
  lemma {:induction false} RunStaysInRange(s: Servos, ts: seq<Target>)
    requires ServosInRange(s)
    ensures ServosInRange(Run(s, ts))
    ensures forall i :: 0 <= i < |RunCommands(s, ts)| ==> InRange(RunCommands(s, ts)[i].angle)
    decreases |ts|
  {
    if ts != [] {
      RunStaysInRange(Adjust(s, ts[0]), ts[1..]);
      var c, rest := Commands(s, ts[0]), RunCommands(Adjust(s, ts[0]), ts[1..]);
      assert forall i :: 0 <= i < |c + rest| ==> (c + rest)[i] == if i < |c| then c[i] else rest[i - |c|];
    }
  }

  /** The pose the servos hold after receiving one command. */
  function ApplyWrite(s: Servos, w: ServoWrite): Servos {
    if w.channel == HorizontalChannel then s.(horizontal := w.angle)
    else if w.channel == VerticalChannel then s.(vertical := w.angle)
    else s
  }

  /** The pose the servos hold after receiving commands in order. */
  function ApplyWrites(s: Servos, ws: seq<ServoWrite>): Servos
    decreases |ws|
  {
    if ws == [] then s else ApplyWrites(ApplyWrite(s, ws[0]), ws[1..])
  }

  lemma {:induction false} ApplyWritesAppend(s: Servos, a: seq<ServoWrite>, b: seq<ServoWrite>)
    ensures ApplyWrites(s, a + b) == ApplyWrites(ApplyWrites(s, a), b)
    decreases |a|
  {
    if a != [] {
      assert (a + b)[0] == a[0] && (a + b)[1..] == a[1..] + b;
      ApplyWritesAppend(ApplyWrite(s, a[0]), a[1..], b);
    } else {
      assert a + b == b;
    }
  }

  /** The commands one call sends put the servos exactly at the angles it computed. */
  lemma CommandsReachAdjust(s: Servos, t: Target)
    ensures ApplyWrites(s, Commands(s, t)) == Adjust(s, t)
  {
    var r := Adjust(s, t);
    var w := Commands(s, t);
    if |w| == 2 {
      var s1 := ApplyWrite(s, w[0]);
      assert s1 == s.(horizontal := r.horizontal);
      assert ApplyWrite(s1, w[1]) == r;
      assert w[1..][1..] == [];
      assert ApplyWrites(s1, w[1..]) == ApplyWrites(r, []);
    } else if |w| == 1 {
      assert ApplyWrite(s, w[0]) == r;
      assert w[1..] == [];
    } else {
      assert r.horizontal == s.horizontal && r.vertical == s.vertical;
    }
  }

  /** Over any run, the servos stand where the commands sent so far put them. */
  lemma {:induction false} RunCommandsReachRun(s: Servos, ts: seq<Target>)
    ensures ApplyWrites(s, RunCommands(s, ts)) == Run(s, ts)
    decreases |ts|
  {
    if ts != [] {
      CommandsReachAdjust(s, ts[0]);
      ApplyWritesAppend(s, Commands(s, ts[0]), RunCommands(Adjust(s, ts[0]), ts[1..]));
      RunCommandsReachRun(Adjust(s, ts[0]), ts[1..]);
    }
  }

  /** The pan angle after a run, from the x coordinates alone. */
  function HorizontalRun(h: int, ts: seq<Target>): int
    decreases |ts|
  {
    if ts == [] then h else HorizontalRun(HorizontalStep(h, ts[0].x), ts[1..])
  }

  /** The tilt angle after a run, from the y coordinates alone. */
  function VerticalRun(v: int, ts: seq<Target>): int
    decreases |ts|
  {
    if ts == [] then v else VerticalRun(VerticalStep(v, ts[0].y), ts[1..])
  }

  /** The axes are independent: over any run, the pan angle depends only on the
      pan angle and the x coordinates, the tilt only on the tilt and the y coordinates. */
  lemma {:induction false} RunAxesIndependent(s: Servos, ts: seq<Target>)
    ensures Run(s, ts) == Servos(VerticalRun(s.vertical, ts), HorizontalRun(s.horizontal, ts))
    decreases |ts|
  {
    if ts != [] {
      RunAxesIndependent(Adjust(s, ts[0]), ts[1..]);
    }
  }

  /** Each target moves each angle by at most one step. */
  lemma {:induction false} RunBoundedMotion(s: Servos, ts: seq<Target>)
    ensures var r := Run(s, ts);
      && -Step * |ts| <= r.horizontal - s.horizontal <= Step * |ts|
      && -Step * |ts| <= r.vertical - s.vertical <= Step * |ts|
    decreases |ts|
  {
    if ts != [] {
      RunBoundedMotion(Adjust(s, ts[0]), ts[1..]);
    }
  }

  function Min(a: int, b: int): int {
    if a <= b then a else b
  }

  /** A target that stays right of the dead zone pans the camera one step per call
      until the next step would pass 180 degrees, and then holds it there. */
  lemma {:induction false} PanTowardRightTarget(h: int, ts: seq<Target>)
    requires InRange(h)
    requires forall i :: 0 <= i < |ts| ==> ts[i].x > DeadzoneRight
    ensures HorizontalRun(h, ts) == h + Step * Min(|ts|, (MaxAngle - h) / Step)
    decreases |ts|
  {
    if ts != [] {
      var h' := HorizontalStep(h, ts[0].x);
      PanTowardRightTarget(h', ts[1..]);
    }
  }

  /** A target that stays left of the dead zone pans the camera one step per call
      until the next step would pass 0 degrees, and then holds it there. */
  lemma {:induction false} PanTowardLeftTarget(h: int, ts: seq<Target>)
    requires InRange(h)
    requires forall i :: 0 <= i < |ts| ==> ts[i].x < DeadzoneLeft
    ensures HorizontalRun(h, ts) == h - Step * Min(|ts|, h / Step)
    decreases |ts|
  {
    if ts != [] {
      var h' := HorizontalStep(h, ts[0].x);
      PanTowardLeftTarget(h', ts[1..]);
    }
  }
}
