/**
  The collaborators the camera-select command observes: cameras with a
  mutable display name, the observable collection that holds a gamepad's
  roster, and the gamepad with its roster and its selected camera. Their
  own behaviour (transport, input) is outside this model; other code
  changes their fields and then raises the events the command handles.
 */
module Devices {
  import opened Wrappers

  /** A camera device handle: an identity with a display name, None for a null Name. */
  class Camera {
    var name: Option<string>

    constructor (name: Option<string>)
      ensures this.name == name
    {
      this.name := name;
    }
  }

  /** The observable collection holding a roster; its order defines option indices. */
  class CameraCollection {
    var items: seq<Camera>

    constructor (items: seq<Camera>)
      ensures this.items == items
    {
      this.items := items;
    }
  }

  /** A controller context: a roster reference (null allowed) and a selected camera (null for none). */
  class Gamepad {
    var cameras: CameraCollection?
    var selectedCamera: Camera?

    constructor (cameras: CameraCollection?, selectedCamera: Camera?)
      ensures this.cameras == cameras && this.selectedCamera == selectedCamera
    {
      this.cameras := cameras;
      this.selectedCamera := selectedCamera;
    }
  }
}
