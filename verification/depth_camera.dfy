/**
 * The frame callbacks of the depth camera plugin: each one consults the
 * activation controller and then runs the fills it selected, producing the
 * messages that would be published.
 */
module DepthCamera {
  import opened Samples
  import opened Activation
  import Images
  import PointCloud

  datatype Option<T> = None | Some(value: T)

  /** What the plugin knows when a frame arrives: whether the camera
      utilities finished initialising, the sensor's image size, the cutoff
      and the lens. */
  datatype Plugin = Plugin(
    initialized: bool,
    width: nat,
    height: nat,
    cutoff: real,
    lens: PointCloud.Lens)

  /** The guard at the head of every frame callback. */
  predicate Ready(p: Plugin) {
    p.initialized && p.height > 0 && p.width > 0
  }

  /** Controller after a depth frame, and the messages it produced. */
  datatype DepthOutput = DepthOutput(
    state: Controller,
    cloud: Option<PointCloud.Cloud>,
    depthImage: Option<Images.Image>)

  /** A depth frame: both outputs are built from the same buffer, each only
      when the sensor was already active and that topic has subscribers. */
  function OnNewDepthFrame(p: Plugin, c: Controller, image: seq<Sample>, colour: seq<bv8>)
    : (r: DepthOutput)
    requires p.height * p.width <= |image|
    ensures !Ready(p) ==> r == DepthOutput(c, None, None)
    ensures SameCounts(r.state, c)
    ensures r.cloud.Some? <==> Ready(p) && c.sensorActive && c.pointCloud > 0
    ensures r.cloud.Some? ==>
              r.cloud.value == PointCloud.CloudOf(p.height, p.width, image, colour, p.cutoff, p.lens)
    ensures r.depthImage.Some? <==> Ready(p) && c.sensorActive && c.depthImage > 0
    ensures r.depthImage.Some? ==>
              r.depthImage.value == Images.DepthImageOf(p.height, p.width, image, p.cutoff)
    ensures r.cloud.Some? || r.depthImage.Some? ==> r.state.sensorActive
  {
    var s := OnDepthFrame(c, Ready(p));
    DepthOutput(
      s.state,
      if PointCloudFill in s.fills
      then Some(PointCloud.CloudOf(p.height, p.width, image, colour, p.cutoff, p.lens))
      else None,
      if DepthImageFill in s.fills
      then Some(Images.DepthImageOf(p.height, p.width, image, p.cutoff))
      else None)
  }

  datatype NormalsOutput = NormalsOutput(state: Controller, normalsImage: Option<Images.Image>)

  function OnNewNormalsFrame(p: Plugin, c: Controller, normals: seq<Sample>): (r: NormalsOutput)
    requires p.height * p.width * 4 <= |normals|
    ensures !Ready(p) ==> r == NormalsOutput(c, None)
    ensures SameCounts(r.state, c)
    ensures r.normalsImage.Some? <==> Ready(p) && c.sensorActive && c.normalsImage > 0
    ensures r.normalsImage.Some? ==>
              r.normalsImage.value == Images.FillNormalsImageHelper(p.height, p.width, normals)
    ensures r.normalsImage.Some? ==> r.state.sensorActive
  {
    var s := OnNormalsFrame(c, Ready(p));
    NormalsOutput(
      s.state,
      if NormalsImageFill in s.fills
      then Some(Images.FillNormalsImageHelper(p.height, p.width, normals))
      else None)
  }

  datatype RgbCloudOutput = RgbCloudOutput(state: Controller, cloud: Option<PointCloud.Cloud>)

  /** A coloured cloud frame of its own size: copied, transposed, when the
      sensor is active and the point cloud topic has subscribers. */
  function OnNewRGBPointCloud(p: Plugin, c: Controller, width: nat, height: nat, pcd: seq<Sample>)
    : (r: RgbCloudOutput)
    requires 4 * (width * height) <= |pcd|
    ensures !Ready(p) ==> r == RgbCloudOutput(c, None)
    ensures SameCounts(r.state, c)
    ensures r.cloud.Some? <==> Ready(p) && c.sensorActive && c.pointCloud > 0
    ensures r.cloud.Some? ==> r.cloud.value == PointCloud.TransposedCloudOf(width, height, pcd)
    ensures r.state.sensorActive <==> c.sensorActive || (Ready(p) && c.pointCloud > 0)
  {
    var s := OnRgbCloudFrame(c, Ready(p));
    RgbCloudOutput(
      s.state,
      if RgbCloudFill in s.fills
      then Some(PointCloud.TransposedCloudOf(width, height, pcd))
      else None)
  }

  /** A fresh plugin whose first subscriber asks for depth images gets one
      on the very next depth frame, and no point cloud. */
  lemma FirstDepthSubscriberServedAtOnce(p: Plugin, active: bool, image: seq<Sample>, colour: seq<bv8>)
    requires Ready(p) && p.height * p.width <= |image|
    ensures var r := OnNewDepthFrame(p, DepthImageConnect(Initial(active)), image, colour);
      r.depthImage.Some? && r.cloud.None? && r.state.sensorActive
  {
  }

  /** Frames arriving before the plugin is ready leave everything as it was,
      whichever callback receives them: depth, normals, coloured cloud or
      camera image frames, in any order. */
  lemma NotReadyIgnoresFrames(p: Plugin, c: Controller, frames: seq<Frame>)
    requires !Ready(p)
    ensures Run(c, frames, Ready(p)) == Step(c, {})
  {
  }
}
