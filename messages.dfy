/**
  The push-channel envelope: a category, an event name and an optional
  payload. The JSON text it is serialised to is not modelled; the
  envelope is the unit the broadcast logs record.
 */
module Messages {
  import opened Wrappers

  /** The anonymous payload object `{ CameraName = ... }`. */
  datatype CameraNamePayload = CameraNamePayload(cameraName: string)

  datatype WebSocketMessage = WebSocketMessage(
    msgType: string,
    action: string,
    payload: Option<CameraNamePayload>)

  /** The envelope announcing that the camera named `name` is now selected. */
  function SelectedCameraChanged(name: string): WebSocketMessage {
    WebSocketMessage("event", "selectedCameraChanged", Some(CameraNamePayload(name)))
  }
}
