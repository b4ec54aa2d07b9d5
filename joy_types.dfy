/** Message and device records shared by the panel: the ROS `sensor_msgs/Joy`
    message the panel produces and relays, and the browser's gamepad snapshot
    it converts from. */
module JoyTypes {

  /** A ROS time stamp (seconds and nanoseconds). */
  datatype Time = Time(sec: int, nsec: int)

  datatype Header = Header(stamp: Time, frameId: string)

  /** The `sensor_msgs/Joy` message: float axes and integer buttons. */
  datatype Joy = Joy(header: Header, axes: seq<real>, buttons: seq<int>)

  /** One button of a browser gamepad snapshot; only `pressed` is read. */
  datatype GamepadButton = GamepadButton(pressed: bool)

  /** A browser gamepad snapshot as `navigator.getGamepads()` reports it. */
  datatype Gamepad = Gamepad(index: nat, axes: seq<real>, buttons: seq<GamepadButton>)

  datatype Option<T> = None | Some(value: T)
}
