/**
 * The demand/activation controller of the depth camera plugin: subscriber
 * counts per published topic, the active flag of the parent sensor, the
 * connect/disconnect handlers that change them, and the gating each frame
 * callback performs before any buffer is filled.
 */
module Activation {

  /** Subscriber counts and the parent sensor's active flag. The counts are
      plain signed integers: a disconnect without a matching connect drives a
      count below zero and nothing clamps it. `image` is the camera image
      count shared with the camera utilities base. */
  datatype Controller = Controller(
    pointCloud: int,
    depthImage: int,
    normalsImage: int,
    depthInfo: int,
    image: int,
    sensorActive: bool)

  /** The state the constructor leaves: every count zero. The sensor's own
      active flag is whatever the simulator started it with. */
  function Initial(sensorActive: bool): (c: Controller)
    ensures c.pointCloud == 0 && c.depthImage == 0 && c.normalsImage == 0
    ensures c.depthInfo == 0 && c.image == 0
    ensures !HasDemand(c)
    ensures c.sensorActive == sensorActive
  {
    Controller(0, 0, 0, 0, 0, sensorActive)
  }

  /** Some count read by the depth and normals frame gates is positive. */
  predicate HasDemand(c: Controller) {
    c.pointCloud > 0 || c.depthImage > 0 || c.normalsImage > 0 || c.image > 0
  }

  /** Equal apart from the active flag: no subscriber count differs. */
  predicate SameCounts(a: Controller, b: Controller) {
    a.(sensorActive := b.sensorActive) == b
  }

  // ---------------------------------------------------------------------
  // Connect and disconnect handlers

  /** One more subscriber on the point cloud topic, which also counts as one
      more on the shared camera image count. */
  function PointCloudConnect(c: Controller): (r: Controller)
    ensures r.sensorActive
    ensures SameCounts(r, c.(pointCloud := c.pointCloud + 1, image := c.image + 1))
  {
    c.(pointCloud := c.pointCloud + 1, image := c.image + 1, sensorActive := true)
  }

  /** Deactivates on its own count alone, even if other topics still have
      subscribers. */
  function PointCloudDisconnect(c: Controller): (r: Controller)
    ensures r.sensorActive <==> c.sensorActive && c.pointCloud > 1
  {
    var pc := c.pointCloud - 1;
    c.(pointCloud := pc, image := c.image - 1,
       sensorActive := if pc <= 0 then false else c.sensorActive)
  }

  function DepthImageConnect(c: Controller): (r: Controller)
    ensures r.sensorActive && HasDemand(r) == (c.depthImage >= 0 || HasDemand(c))
    ensures SameCounts(r, c.(depthImage := c.depthImage + 1))
  {
    c.(depthImage := c.depthImage + 1, sensorActive := true)
  }

  /** Only the count moves; the sensor stays as it was. */
  function DepthImageDisconnect(c: Controller): (r: Controller)
    ensures r.sensorActive == c.sensorActive && r.depthImage < c.depthImage
  {
    c.(depthImage := c.depthImage - 1)
  }

  function NormalsImageConnect(c: Controller): (r: Controller)
    ensures r.sensorActive && HasDemand(r) == (c.normalsImage >= 0 || HasDemand(c))
    ensures SameCounts(r, c.(normalsImage := c.normalsImage + 1))
  {
    c.(normalsImage := c.normalsImage + 1, sensorActive := true)
  }

  /** Only the count moves; the sensor stays as it was. */
  function NormalsImageDisconnect(c: Controller): (r: Controller)
    ensures r.sensorActive == c.sensorActive && r.normalsImage < c.normalsImage
  {
    c.(normalsImage := c.normalsImage - 1)
  }

  /** Unlike the other connects, this one leaves the sensor alone. */
  function DepthInfoConnect(c: Controller): (r: Controller)
    ensures r.sensorActive == c.sensorActive && HasDemand(r) == HasDemand(c)
    ensures SameCounts(r, c.(depthInfo := c.depthInfo + 1))
  {
    c.(depthInfo := c.depthInfo + 1)
  }

  function DepthInfoDisconnect(c: Controller): (r: Controller)
    ensures r.sensorActive == c.sensorActive && HasDemand(r) == HasDemand(c)
  {
    c.(depthInfo := c.depthInfo - 1)
  }

  lemma PointCloudRoundTrip(c: Controller)
    ensures PointCloudDisconnect(PointCloudConnect(c)) == c.(sensorActive := c.pointCloud > 0)
    ensures PointCloudConnect(PointCloudDisconnect(c)) == c.(sensorActive := true)
  {
  }

  lemma ImageTopicRoundTrips(c: Controller)
    ensures DepthImageDisconnect(DepthImageConnect(c)) == c.(sensorActive := true)
    ensures DepthImageConnect(DepthImageDisconnect(c)) == c.(sensorActive := true)
    ensures NormalsImageDisconnect(NormalsImageConnect(c)) == c.(sensorActive := true)
    ensures NormalsImageConnect(NormalsImageDisconnect(c)) == c.(sensorActive := true)
    ensures DepthInfoDisconnect(DepthInfoConnect(c)) == c
    ensures DepthInfoConnect(DepthInfoDisconnect(c)) == c
  {
  }

  /** Each disconnect lowers exactly its own counts by one and nothing
      else, with no lower bound. */
  lemma DisconnectsOnlyDecrement(c: Controller)
    ensures DepthImageDisconnect(c) == c.(depthImage := c.depthImage - 1)
    ensures NormalsImageDisconnect(c) == c.(normalsImage := c.normalsImage - 1)
    ensures DepthInfoDisconnect(c) == c.(depthInfo := c.depthInfo - 1)
    ensures SameCounts(PointCloudDisconnect(c),
                       c.(pointCloud := c.pointCloud - 1, image := c.image - 1))
  {
  }

  // ---------------------------------------------------------------------
  // Frame gating

  /** The buffer fills a frame callback can run. `CameraImageFill` is the
      camera utilities' own image publication. */
  datatype Fill =
    | PointCloudFill
    | DepthImageFill
    | NormalsImageFill
    | CameraImageFill
    | RgbCloudFill

  /** The controller after a frame, and the fills that ran on it. */
  datatype Step = Step(state: Controller, fills: set<Fill>)

  /** Condition under which an inactive sensor is switched back on by a
      depth or normals frame: a point cloud subscriber, or NO depth image
      subscriber, or NO normals subscriber. */
  predicate DepthWakeCondition(c: Controller) {
    c.pointCloud > 0 || c.depthImage <= 0 || c.normalsImage <= 0
  }

  function OnDepthFrame(c: Controller, ready: bool): (s: Step)
    ensures SameCounts(s.state, c)
    ensures !ready ==> s == Step(c, {})
    ensures s.fills <= {PointCloudFill, DepthImageFill}
    ensures PointCloudFill in s.fills <==> ready && c.sensorActive && c.pointCloud > 0
    ensures DepthImageFill in s.fills <==> ready && c.sensorActive && c.depthImage > 0
    ensures ready && c.sensorActive ==> (s.state.sensorActive <==> HasDemand(c))
    ensures ready && !c.sensorActive ==> (s.state.sensorActive <==> DepthWakeCondition(c))
  {
    if !ready then Step(c, {})
    else if c.sensorActive then
      if !HasDemand(c) then Step(c.(sensorActive := false), {})
      else
        Step(c, (if c.pointCloud > 0 then {PointCloudFill} else {})
              + (if c.depthImage > 0 then {DepthImageFill} else {}))
    else if DepthWakeCondition(c) then Step(c.(sensorActive := true), {})
    else Step(c, {})
  }

  function OnNormalsFrame(c: Controller, ready: bool): (s: Step)
    ensures SameCounts(s.state, c)
    ensures !ready ==> s == Step(c, {})
    ensures s.fills <= {NormalsImageFill}
    ensures NormalsImageFill in s.fills <==> ready && c.sensorActive && c.normalsImage > 0
    ensures ready && c.sensorActive ==> (s.state.sensorActive <==> HasDemand(c))
    ensures ready && !c.sensorActive ==> (s.state.sensorActive <==> DepthWakeCondition(c))
  {
    if !ready then Step(c, {})
    else if c.sensorActive then
      if !HasDemand(c) then Step(c.(sensorActive := false), {})
      else Step(c, if c.normalsImage > 0 then {NormalsImageFill} else {})
    else if DepthWakeCondition(c) then Step(c.(sensorActive := true), {})
    else Step(c, {})
  }

  /** The camera image gate never deactivates the sensor. */
  function OnImageFrame(c: Controller, ready: bool): (s: Step)
    ensures SameCounts(s.state, c)
    ensures !ready ==> s == Step(c, {})
    ensures s.fills <= {CameraImageFill}
    ensures CameraImageFill in s.fills <==> ready && c.sensorActive && c.image > 0
    ensures s.state.sensorActive <==> c.sensorActive || (ready && c.image > 0)
  {
    if !ready then Step(c, {})
    else if !c.sensorActive then
      if c.image > 0 then Step(c.(sensorActive := true), {}) else Step(c, {})
    else Step(c, if c.image > 0 then {CameraImageFill} else {})
  }

  /** The coloured point cloud gate never deactivates the sensor. */
  function OnRgbCloudFrame(c: Controller, ready: bool): (s: Step)
    ensures SameCounts(s.state, c)
    ensures !ready ==> s == Step(c, {})
    ensures s.fills <= {RgbCloudFill}
    ensures RgbCloudFill in s.fills <==> ready && c.sensorActive && c.pointCloud > 0
    ensures s.state.sensorActive <==> c.sensorActive || (ready && c.pointCloud > 0)
  {
    if !ready then Step(c, {})
    else if !c.sensorActive then
      if c.pointCloud > 0 then Step(c.(sensorActive := true), {}) else Step(c, {})
    else Step(c, if c.pointCloud > 0 then {RgbCloudFill} else {})
  }

  // ---------------------------------------------------------------------
  // Sequences of frames

  datatype Frame = DepthFrame | NormalsFrame | ImageFrame | RgbCloudFrame

  function OnFrame(f: Frame, c: Controller, ready: bool): Step {
    match f
    case DepthFrame => OnDepthFrame(c, ready)
    case NormalsFrame => OnNormalsFrame(c, ready)
    case ImageFrame => OnImageFrame(c, ready)
    case RgbCloudFrame => OnRgbCloudFrame(c, ready)
  }

  /** The count a fill serves. */
  function Demand(f: Fill, c: Controller): int {
    match f
    case PointCloudFill => c.pointCloud
    case DepthImageFill => c.depthImage
    case NormalsImageFill => c.normalsImage
    case CameraImageFill => c.image
    case RgbCloudFill => c.pointCloud
  }

  /** Delivers the frames in order; the result holds the final controller
      and every fill that ran on the way. */
  function Run(c: Controller, frames: seq<Frame>, ready: bool): (s: Step)
    ensures SameCounts(s.state, c)
    ensures !ready ==> s == Step(c, {})
    decreases |frames|
  {
    if |frames| == 0 then Step(c, {})
    else
      var first := OnFrame(frames[0], c, ready);
      var rest := Run(first.state, frames[1..], ready);
      Step(rest.state, first.fills + rest.fills)
  }

  /** Frames never serve a topic without subscribers: whatever the frames
      and whatever the sensor does in between, every fill that runs has a
      positive count. */
  lemma {:induction false} FillsNeedDemand(c: Controller, frames: seq<Frame>, ready: bool)
    ensures forall f :: f in Run(c, frames, ready).fills ==> Demand(f, c) > 0
    decreases |frames|
  {
    if |frames| > 0 {
      var first := OnFrame(frames[0], c, ready);
      FillsNeedDemand(first.state, frames[1..], ready);
      assert forall f :: Demand(f, first.state) == Demand(f, c);
    }
  }

  /** Depth and normals subscribers with no point cloud or camera image
      subscriber, and the sensor off: no frame callback ever switches the
      sensor back on, so these subscribers receive nothing. */
  predicate Starved(c: Controller) {
    !c.sensorActive && c.pointCloud <= 0 && c.image <= 0
    && c.depthImage > 0 && c.normalsImage > 0
  }

  lemma {:induction false} StarvedStaysStarved(c: Controller, frames: seq<Frame>, ready: bool)
    requires Starved(c)
    ensures Run(c, frames, ready) == Step(c, {})
    decreases |frames|
  {
    if |frames| > 0 {
      assert OnFrame(frames[0], c, ready) == Step(c, {});
      StarvedStaysStarved(c, frames[1..], ready);
    }
  }

  /** The starved state is reached from a fresh plugin by four handler calls:
      a depth, a normals and a point cloud subscriber connect, then the point
      cloud subscriber leaves. */
  lemma StarvationReachable(active: bool)
    ensures Starved(PointCloudDisconnect(PointCloudConnect(
              NormalsImageConnect(DepthImageConnect(Initial(active))))))
  {
  }

  /** With no subscriber at all the sensor does not settle: a depth frame
      that reaches it while it is inactive switches it on, the next depth
      frame switches it off again, and a normals frame after that switches it
      back on. None of these frames produces output. */
  lemma IdleSensorToggles(c: Controller)
    requires !HasDemand(c) && !c.sensorActive
    ensures OnDepthFrame(c, true) == Step(c.(sensorActive := true), {})
    ensures OnDepthFrame(c.(sensorActive := true), true) == Step(c, {})
    ensures Run(c.(sensorActive := true), [DepthFrame, NormalsFrame], true)
         == Step(c.(sensorActive := true), {})
  {
  }

  /** A depth image subscriber connecting to a ready plugin is served on the
      very next depth frame (unless earlier unmatched disconnects left the
      count negative): the connect itself activates the sensor. */
  lemma ConnectServesNextFrame(c: Controller)
    requires c.depthImage >= 0
    ensures DepthImageFill in OnDepthFrame(DepthImageConnect(c), true).fills
  {
  }

  /** An unmatched disconnect leaves the count at -1, so the next subscriber
      is not served. */
  lemma UnmatchedDisconnectHidesNextSubscriber(active: bool)
    ensures var c := DepthImageConnect(DepthImageDisconnect(Initial(active)));
      c.depthImage == 0 && OnDepthFrame(c, true).fills == {}
  {
  }

  /** The last depth image subscriber leaving does not deactivate the
      sensor; the next depth frame does. */
  lemma LastDepthSubscriberLeaves(c: Controller)
    requires c.sensorActive && c.depthImage == 1
    requires c.pointCloud <= 0 && c.normalsImage <= 0 && c.image <= 0
    ensures DepthImageDisconnect(c).sensorActive
    ensures OnDepthFrame(DepthImageDisconnect(c), true)
         == Step(DepthImageDisconnect(c).(sensorActive := false), {})
  {
  }

  /** The depth camera info count never influences a frame. */
  lemma DepthInfoIgnoredByFrames(c: Controller, n: int, f: Frame, ready: bool)
    ensures OnFrame(f, c.(depthInfo := n), ready).fills == OnFrame(f, c, ready).fills
    ensures OnFrame(f, c.(depthInfo := n), ready).state
         == OnFrame(f, c, ready).state.(depthInfo := n)
  {
  }
}
