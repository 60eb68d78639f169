# Depth camera plugin: demand controller and buffer fillers

A Dafny model of the core of the `GazeboRosDepthCamera` sensor plugin
(`src/nps_gazebo_ros_depth_camera_sonar_single_beam.cpp`). The plugin turns
simulated depth, normals and coloured point-cloud frames into ROS messages.
Two parts are modelled:

- **The demand/activation controller** (`activation.dfy`, module
  `Activation`). Its state is a `Controller` record: the signed subscriber
  counts for the point cloud, depth image, normals image, depth camera info
  and camera image topics, plus the parent sensor's active flag. The
  connect/disconnect handlers are pure functions on that record. Each frame
  callback's gating is a pure function that returns a `Step`: the new
  controller and the set of fills that ran. `Run` delivers a sequence of
  frames.
- **The buffer fillers.** The depth image and normals image are in
  `images.dfy` (module `Images`). The unprojected point cloud and the
  transposed copy of a coloured cloud are in `point_cloud.dfy` (module
  `PointCloud`). Each filler has a declarative reference definition
  (`DepthImageOf`, `CloudOf`, `TransposedCloudOf`). Each loop the plugin
  runs is a method that mirrors it: the same traversal order, the same
  running read index and the same sticky dense flag. Each such method is
  proved equal to its reference.

`depth_camera.dfy` (module `DepthCamera`) puts the two together. It has the
frame callbacks `OnNewDepthFrame`, `OnNewNormalsFrame` and
`OnNewRGBPointCloud`, and the readiness guard that heads every callback.
`samples.dfy` holds the float sample type (`Num(real) | NaN`, where `>`
is false on NaN as in IEEE 754) and the row-major index lemmas.

The trigonometric functions `tan` and `atan2` and the focal length are
values carried by a `PointCloud.Lens`. Nothing is assumed about them, so the
model records which row or column index feeds which angle, not the angles'
values.

### Where the code departs from an idealised demand rule (the model follows the code)

- A connect activates the sensor at once. A new depth or normals subscriber
  is therefore served on the very next frame, with no one-frame lag
  (`Activation.ConnectServesNextFrame`,
  `DepthCamera.FirstDepthSubscriberServedAtOnce`). `DepthInfoConnect`
  does not activate the sensor.
- `PointCloudDisconnect` deactivates the sensor whenever the point cloud
  count falls to zero or below, even if other topics still have
  subscribers. The depth, normals and depth-info disconnects never
  deactivate it.
- An inactive sensor is re-activated by a depth or normals frame under
  `pointCloud > 0 || depthImage <= 0 || normalsImage <= 0`, not "some demand
  exists". This has two consequences:
  - With no subscriber at all, the sensor does not settle. A depth frame
    that reaches it while it is inactive switches it on. The next depth
    frame switches it off, and a normals frame after that switches it on
    again (`Activation.IdleSensorToggles`). Whether a frame reaches an
    inactive sensor at all depends on the simulator (see "Left out").
  - With depth and normals subscribers, an inactive sensor and no point
    cloud or camera image subscriber, no frame ever re-activates it
    (`Activation.StarvedStaysStarved`). Four handler calls from a fresh
    plugin reach that state (`Activation.StarvationReachable`).
- Counts are not clamped. An unmatched disconnect leaves a count at -1, and
  the next subscriber is then not served
  (`Activation.UnmatchedDisconnectHidesNextSubscriber`).
- `FillPointCloudHelper` writes its records row-major. Only the coloured
  cloud copy in `OnNewRGBPointCloud` walks columns first.
- `is_dense` is cleared by any sample that is not strictly above the
  cutoff. That includes NaN samples, not only samples `<= cutoff`.

## Model

| member | source | states |
|---|---|---|
| `Activation.Initial` | src/nps_gazebo_ros_depth_camera_sonar_single_beam.cpp:47-56 | the constructor leaves every subscriber count at zero, so no topic has demand |
| `Activation.PointCloudConnect` | src/nps_gazebo_ros_depth_camera_sonar_single_beam.cpp:172-177 | a point cloud connect always leaves the sensor active and raises the point cloud count and the shared camera image count by one, leaving the other counts alone |
| `Activation.PointCloudDisconnect` | src/nps_gazebo_ros_depth_camera_sonar_single_beam.cpp:180-186 | afterwards the sensor is active iff it was active and the point cloud count stays positive; other topics' demand plays no part |
| `Activation.PointCloudRoundTrip` | src/nps_gazebo_ros_depth_camera_sonar_single_beam.cpp:172-186 | connect then disconnect restores every count (both the point cloud and the shared image count move by one) and leaves the sensor active iff the original point cloud count was positive; disconnect then connect restores every count and activates |
| `Activation.DepthImageConnect` | src/nps_gazebo_ros_depth_camera_sonar_single_beam.cpp:190-195 | the sensor is active afterwards; the depth count rises by one and no other count changes; demand exists afterwards iff it did before or the depth count was not negative |
| `Activation.DepthImageDisconnect` | src/nps_gazebo_ros_depth_camera_sonar_single_beam.cpp:198-202 | the depth count goes down and the sensor's flag is untouched |
| `Activation.NormalsImageConnect` | src/nps_gazebo_ros_depth_camera_sonar_single_beam.cpp:206-211 | the sensor is active afterwards; the normals count rises by one and no other count changes; demand exists afterwards iff it did before or the normals count was not negative |
| `Activation.NormalsImageDisconnect` | src/nps_gazebo_ros_depth_camera_sonar_single_beam.cpp:214-218 | the normals count goes down and the sensor's flag is untouched |
| `Activation.DepthInfoConnect` | src/nps_gazebo_ros_depth_camera_sonar_single_beam.cpp:222-225 | the depth info count rises by one; neither the sensor's flag nor the demand seen by the frame gates changes |
| `Activation.DepthInfoDisconnect` | src/nps_gazebo_ros_depth_camera_sonar_single_beam.cpp:228-231 | neither the sensor's flag nor the demand seen by the frame gates changes |
| `Activation.ImageTopicRoundTrips` | src/nps_gazebo_ros_depth_camera_sonar_single_beam.cpp:190-231 | a connect and a disconnect of the depth or normals topic, in either order, restore every count and leave the sensor active; for depth info they restore the controller exactly |
| `Activation.DisconnectsOnlyDecrement` | src/nps_gazebo_ros_depth_camera_sonar_single_beam.cpp:180-231 | each disconnect lowers exactly its own counts by one, with no lower bound, and the depth, normals and depth-info disconnects change nothing else |
| `Activation.OnDepthFrame` | src/nps_gazebo_ros_depth_camera_sonar_single_beam.cpp:240-277 | counts never change; not ready means no change and no fill; the point cloud fill runs iff ready, already active and point cloud count > 0; the depth fill runs iff ready, already active and depth count > 0; an active sensor stays active iff some demand exists; an inactive one is switched on iff the wake condition holds |
| `Activation.OnNormalsFrame` | src/nps_gazebo_ros_depth_camera_sonar_single_beam.cpp:600-640 | the same gating as the depth frame, with the normals fill running iff ready, already active and normals count > 0 |
| `Activation.OnImageFrame` | src/nps_gazebo_ros_depth_camera_sonar_single_beam.cpp:366-394 | the camera image is produced iff ready, active and image count > 0; the sensor ends active iff it was active or (ready and image count > 0), so this gate never deactivates |
| `Activation.OnRgbCloudFrame` | src/nps_gazebo_ros_depth_camera_sonar_single_beam.cpp:287-307 | the coloured cloud copy runs iff ready, active and point cloud count > 0; the sensor ends active iff it was active or (ready and point cloud count > 0) |
| `Activation.Run` | src/nps_gazebo_ros_depth_camera_sonar_single_beam.cpp:240-277 | any sequence of frames leaves every count as it was, and changes nothing when the plugin is not ready |
| `Activation.FillsNeedDemand` | src/nps_gazebo_ros_depth_camera_sonar_single_beam.cpp:251-277 | over any sequence of frames, every fill that runs serves a topic whose count is positive |
| `Activation.StarvedStaysStarved` | src/nps_gazebo_ros_depth_camera_sonar_single_beam.cpp:269-277 | with depth and normals subscribers, no point cloud or camera image subscriber and the sensor off, no sequence of frames changes anything or produces any output |
| `Activation.StarvationReachable` | src/nps_gazebo_ros_depth_camera_sonar_single_beam.cpp:172-218 | depth connect, normals connect, point cloud connect and point cloud disconnect on a fresh plugin reach that starved state |
| `Activation.IdleSensorToggles` | src/nps_gazebo_ros_depth_camera_sonar_single_beam.cpp:251-277 | with no demand, an inactive sensor is switched on by a depth frame; an active one is switched off by a depth frame and back on by the normals frame after it; none of these frames produces output |
| `Activation.ConnectServesNextFrame` | src/nps_gazebo_ros_depth_camera_sonar_single_beam.cpp:190-195 | after a depth connect from a non-negative count, the next ready depth frame runs the depth fill |
| `Activation.UnmatchedDisconnectHidesNextSubscriber` | src/nps_gazebo_ros_depth_camera_sonar_single_beam.cpp:198-202 | a disconnect without a connect, then a connect, leaves the depth count at zero and the next depth frame runs no fill |
| `Activation.LastDepthSubscriberLeaves` | src/nps_gazebo_ros_depth_camera_sonar_single_beam.cpp:198-202 | the last depth subscriber leaving keeps the sensor active; the next depth frame deactivates it and fills nothing |
| `Activation.DepthInfoIgnoredByFrames` | src/nps_gazebo_ros_depth_camera_sonar_single_beam.cpp:222-231 | the depth info count influences neither the fills nor the activation decided by any frame |
| `Images.FillDepthImageHelper` | src/nps_gazebo_ros_depth_camera_sonar_single_beam.cpp:450-487 | the nested row/column loop with a running read index produces exactly the declarative depth image |
| `Images.DepthImageContents` | src/nps_gazebo_ros_depth_camera_sonar_single_beam.cpp:455-485 | a 32FC1 little-endian image of height rows, width cols, step 4*cols and rows*cols*4 bytes; pixel i + j*cols is sample j*cols + i when strictly above the cutoff and NaN otherwise |
| `Images.CutoffBoundary` | src/nps_gazebo_ros_depth_camera_sonar_single_beam.cpp:476-483 | a sample equal to the cutoff and a NaN sample become NaN; a sample above it is kept |
| `Images.FillNormalsImageHelper` | src/nps_gazebo_ros_depth_camera_sonar_single_beam.cpp:668-687 | a 32FC4 image with step 16*cols holding the first rows*cols*4 floats of the frame unchanged |
| `Images.NormalsUnfiltered` | src/nps_gazebo_ros_depth_camera_sonar_single_beam.cpp:683-684 | a normals channel that the depth fill would blank (NaN or not above the cutoff) reaches the normals image unchanged |
| `PointCloud.FillPointCloudHelper` | src/nps_gazebo_ros_depth_camera_sonar_single_beam.cpp:490-587 | the row-outer loop with its running read index and sticky dense flag produces exactly the declarative cloud |
| `PointCloud.CloudRowMajor` | src/nps_gazebo_ros_depth_camera_sonar_single_beam.cpp:513-547 | the cloud has rows*cols records; record j*cols + i unprojects sample j*cols + i with the pitch of row j and the yaw of column i |
| `PointCloud.PointValidity` | src/nps_gazebo_ros_depth_camera_sonar_single_beam.cpp:540-556 | record k has z equal to sample k and finite x, y when the sample is strictly above the cutoff; otherwise x, y and z are all NaN |
| `PointCloud.DenseIffNoNaNPoint` | src/nps_gazebo_ros_depth_camera_sonar_single_beam.cpp:504-556 | `is_dense` is false exactly when some record has a NaN z, that is, when some sample is not above the cutoff |
| `PointCloud.DegenerateAngles` | src/nps_gazebo_ros_depth_camera_sonar_single_beam.cpp:515-538 | yaw is 0 when cols == 1 and pitch is 0 when rows == 1; mirrored rows and columns lie at opposite offsets from the centre (n-1)/2 |
| `PointCloud.UnprojectionGeometry` | src/nps_gazebo_ros_depth_camera_sonar_single_beam.cpp:540-550 | a valid record has x = z*tan(yaw of its column) and y = z*tan(pitch of its row) |
| `PointCloud.ColourPolicy` | src/nps_gazebo_ros_depth_camera_sonar_single_beam.cpp:559-582 | a colour image of rows*cols*3 bytes gives bytes 0, 1, 2 of record k's `rgb` field the image bytes at 3k, 3k+1, 3k+2 in that order; one of rows*cols bytes gives grey (v, v, v) from byte k; any other size gives (0, 0, 0) |
| `PointCloud.UniformFrameIsDense` | src/nps_gazebo_ros_depth_camera_sonar_single_beam.cpp:504-556 | a 4x4 frame at depth 1.0 with cutoff 0.4 gives 16 records with z = 1.0 and a dense cloud |
| `PointCloud.OneNearSampleBreaksDensity` | src/nps_gazebo_ros_depth_camera_sonar_single_beam.cpp:504-556 | the same frame with one sample at 0.2 has that record all NaN, the other 15 at z = 1.0, and is not dense |
| `PointCloud.CopyRgbPointCloud` | src/nps_gazebo_ros_depth_camera_sonar_single_beam.cpp:324-351 | the column-outer copy loop produces exactly the declarative transposed cloud, flagged dense |
| `PointCloud.TransposedContents` | src/nps_gazebo_ros_depth_camera_sonar_single_beam.cpp:331-340 | the record written n-th, n = i*height + j, holds the four floats at source offset 4*(j*width + i) |
| `PointCloud.TransposeIsPermutation` | src/nps_gazebo_ros_depth_camera_sonar_single_beam.cpp:331-340 | distinct records come from distinct source pixels and every source pixel is written, so the copy is a permutation of the pixels |
| `DepthCamera.OnNewDepthFrame` | src/nps_gazebo_ros_depth_camera_sonar_single_beam.cpp:235-278 | not ready means no change and no output; a point cloud (equal to the declarative cloud) is produced iff ready, already active and point cloud count > 0; a depth image iff ready, already active and depth count > 0; any output implies the sensor stays active |
| `DepthCamera.OnNewNormalsFrame` | src/nps_gazebo_ros_depth_camera_sonar_single_beam.cpp:595-641 | not ready means no change; the normals image (the unfiltered copy) is produced iff ready, already active and normals count > 0 |
| `DepthCamera.OnNewRGBPointCloud` | src/nps_gazebo_ros_depth_camera_sonar_single_beam.cpp:282-357 | not ready means no change; the transposed copy of the frame's own size is produced iff ready, active and point cloud count > 0; this callback never deactivates |
| `DepthCamera.FirstDepthSubscriberServedAtOnce` | src/nps_gazebo_ros_depth_camera_sonar_single_beam.cpp:190-278 | a fresh ready plugin whose first subscriber is a depth image subscriber produces a depth image and no point cloud on the next depth frame |
| `DepthCamera.NotReadyIgnoresFrames` | src/nps_gazebo_ros_depth_camera_sonar_single_beam.cpp:240-241 | before initialisation, or with a zero height or width, any sequence of depth, normals, coloured cloud and camera image frames leaves the controller unchanged and runs no fill; the same guard heads each callback (lines 240-241, 287-288, 366-367 and 600-601) |

## Left out

- Locking and publishing (`lock_`, `publish`): concurrency and transport. Subscriber counts written by other threads are not modelled; every operation is one atomic step.
- Header stamping (frame id, measurement times) and the console output: ROS/Gazebo plumbing.
- `Load` and `Advertise`: description-file parsing and topic advertisement. The cutoff is a field of `DepthCamera.Plugin`; its default of 0.4 (lines 53 and 122-126) is plumbing.
- `PublishCameraInfo`: it depends on the camera utilities base class and its time types, which are not part of this model.
- `PutCameraData` in `OnNewImageFrame`: a foreign call. Only its gating is modelled (`Activation.OnImageFrame`). The camera image count is also changed by the base class's own image connect/disconnect handlers, which are not part of this model.
- Frame delivery and the active flag: the simulator stops rendering a deactivated sensor, so in practice an inactive branch of a frame callback runs only for frames already in flight. The model delivers any frame in any state (`Activation.Run`), which over-approximates delivery; the results about every frame sequence (`Activation.Run`, `Activation.FillsNeedDemand`, `Activation.StarvedStaysStarved`) hold a fortiori for the frames actually delivered.
- Activation.Initial: the camera image count starts at zero here; its initialisation belongs to the base class, which is not part of this model.
- The focal length formula (line 510) and the values of `tan` and `atan2`: floating point. They are opaque fields of `PointCloud.Lens`.
- Single-precision rounding, infinities and the float/double conversions: samples are exact reals or NaN.
- The point cloud's message metadata: field layout, `point_step`, and the width, height and row step adjusted by `PointCloud2Modifier`. These come from a library that is not part of this model. Also left out is the fourth byte of the `rgb` field, which the fill never writes.
- The 32-bit wrap-around of products such as `rows*cols*3`: sizes are unbounded naturals. The wrap needs images of over a billion pixels.
- The debug print of the centre pixel's colour (lines 341-349).
- Colour channel meaning: `PointCloud.Colour.Rgb` names its fields by byte position (`byte0`, `byte1`, `byte2`). The fill copies the image's pixel bytes into bytes 0, 1 and 2 of the `rgb` field in image order (lines 565-567), while the debug print reads red from byte 2 of a little-endian word (lines 343-346). Whether red lands where it is read depends on the camera image's channel order (RGB or BGR), which is not part of this model, so no red/blue swap is claimed.
- Buffer lengths: the frame buffers are taken to hold a whole frame (a `requires` on each filler). The C++ code reads past the end of a short buffer, which is undefined behaviour.
- `scripts/sonar_equations.py` (floating-point acoustics, noise, plotting) and the GPU sonar header (declarations only): no discrete core.
