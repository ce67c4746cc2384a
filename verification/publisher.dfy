/** The node: its persistent message `imuMsg_`, set up once by the constructor
    and then overwritten field by field on every timer tick. */
module Publisher {
  import opened Messages
  import opened Covariance
  import opened Tick

  /** Frame id used when the `frame_id` parameter is not set. */
  const DEFAULT_FRAME_ID: string := "imu_link"

  /** `sensor_msgs::msg::Imu` as a mutable object: the covariance arrays are
      fixed-size buffers embedded in the message. */
  class ImuMessage {
    var header: Header
    var orientation: Quaternion
    const orientationCovariance: array<real>
    var angularVelocity: Vector3
    const angularVelocityCovariance: array<real>
    var linearAcceleration: Vector3
    const linearAccelerationCovariance: array<real>

    ghost predicate Valid()
      reads this
    {
      && orientationCovariance.Length == COVARIANCE_SIZE
      && angularVelocityCovariance.Length == COVARIANCE_SIZE
      && linearAccelerationCovariance.Length == COVARIANCE_SIZE
      && orientationCovariance != angularVelocityCovariance
      && orientationCovariance != linearAccelerationCovariance
      && angularVelocityCovariance != linearAccelerationCovariance
    }

    /** The copy `publish` takes of the message. */
    function Value(): Imu
      reads this, orientationCovariance, angularVelocityCovariance, linearAccelerationCovariance
    {
      Imu(header, orientation, orientationCovariance[..], angularVelocity,
          angularVelocityCovariance[..], linearAcceleration, linearAccelerationCovariance[..])
    }

    /** `sensor_msgs::msg::Imu()`. */
    constructor ()
      ensures Valid() && Value() == DefaultImu()
      ensures fresh(orientationCovariance) && fresh(angularVelocityCovariance) && fresh(linearAccelerationCovariance)
    {
      header := Header(0, "");
      orientation := Quaternion(1.0, 0.0, 0.0, 0.0);
      angularVelocity := Vector3(0.0, 0.0, 0.0);
      linearAcceleration := Vector3(0.0, 0.0, 0.0);
      orientationCovariance := new real[COVARIANCE_SIZE](_ => 0.0);
      angularVelocityCovariance := new real[COVARIANCE_SIZE](_ => 0.0);
      linearAccelerationCovariance := new real[COVARIANCE_SIZE](_ => 0.0);
    }
  }

  class MinimalPublisher {
    const imuMsg: ImuMessage
    const frameId: string
    /** Every message handed to the publisher so far, oldest first. */
    var published: seq<Imu>

    ghost predicate Valid()
      reads this, imuMsg
    {
      imuMsg.Valid()
    }

    /** `frameIdOverride` is the value given for the `frame_id` parameter, if
        any; without one the frame id keeps its default. The loop lays the
        three constant variance triples out in the message's covariance arrays. */
    constructor (frameIdOverride: Option<string>)
      ensures Valid() && fresh(imuMsg)
      ensures fresh(imuMsg.orientationCovariance) && fresh(imuMsg.angularVelocityCovariance)
        && fresh(imuMsg.linearAccelerationCovariance)
      ensures frameIdOverride == None ==> frameId == DEFAULT_FRAME_ID
      ensures frameIdOverride.Some? ==> frameId == frameIdOverride.value
      ensures published == []
      ensures imuMsg.Value() == DefaultImu().(
        orientationCovariance := Layout(QUAT_COVARIANCE),
        angularVelocityCovariance := Layout(GYRO_COVARIANCE),
        linearAccelerationCovariance := Layout(ACCEL_COVARIANCE))
    {
      var msg := new ImuMessage();
      frameId := if frameIdOverride.Some? then frameIdOverride.value else DEFAULT_FRAME_ID;
      for i := 0 to msg.angularVelocityCovariance.Length
        invariant msg.Valid()
        invariant msg.header == DefaultImu().header && msg.orientation == DefaultImu().orientation
        invariant msg.angularVelocity == DefaultImu().angularVelocity
        invariant msg.linearAcceleration == DefaultImu().linearAcceleration
        invariant forall k :: 0 <= k < i ==> msg.angularVelocityCovariance[k] == Layout(GYRO_COVARIANCE)[k]
        invariant forall k :: 0 <= k < i ==> msg.linearAccelerationCovariance[k] == Layout(ACCEL_COVARIANCE)[k]
        invariant forall k :: 0 <= k < i ==> msg.orientationCovariance[k] == Layout(QUAT_COVARIANCE)[k]
      {
        if i % 3 == 0 {
          msg.angularVelocityCovariance[i] := GYRO_COVARIANCE[i / 3];
          msg.linearAccelerationCovariance[i] := ACCEL_COVARIANCE[i / 3];
          msg.orientationCovariance[i] := QUAT_COVARIANCE[i / 3];
        } else {
          msg.angularVelocityCovariance[i] := 0.0;
          msg.linearAccelerationCovariance[i] := 0.0;
          msg.orientationCovariance[i] := 0.0;
        }
      }
      imuMsg := msg;
      published := [];
    }

    /** One timer tick. `t` supplies the clock reading and the device's answers;
        the device calls made are returned in order, with whether the tick
        paused for one second. */
    method TimerCallback(t: TickInput) returns (calls: seq<DeviceCall>, slept: bool)
      requires Valid()
      modifies this, imuMsg
      ensures Valid()
      ensures Step(old(imuMsg.Value()), frameId, t).msg == imuMsg.Value()
      ensures Step(old(imuMsg.Value()), frameId, t).calls == calls
      ensures Step(old(imuMsg.Value()), frameId, t).slept == slept
      ensures published == old(published) + (if AllReadsOk(t) then [imuMsg.Value()] else [])
      ensures imuMsg.orientationCovariance[..] == old(imuMsg.orientationCovariance[..])
      ensures imuMsg.angularVelocityCovariance[..] == old(imuMsg.angularVelocityCovariance[..])
      ensures imuMsg.linearAccelerationCovariance[..] == old(imuMsg.linearAccelerationCovariance[..])
    {
      calls, slept := [], false;
      imuMsg.header := imuMsg.header.(stamp := t.now);
      imuMsg.header := imuMsg.header.(frameId := frameId);

      calls := calls + [GetAccelMsq];
      if t.accel.Ok? {
        var accel := t.accel.value;
        calls := calls + [GetGyroRps];
        if t.gyro.Ok? {
          var gyro := t.gyro.value;
          calls := calls + [GetQuaternion];
          if t.quat.Ok? {
            var quats := t.quat.value;

            imuMsg.linearAcceleration := imuMsg.linearAcceleration.(x := accel.x);
            imuMsg.linearAcceleration := imuMsg.linearAcceleration.(y := accel.y);
            imuMsg.linearAcceleration := imuMsg.linearAcceleration.(z := accel.z);

            imuMsg.angularVelocity := imuMsg.angularVelocity.(x := gyro.x);
            imuMsg.angularVelocity := imuMsg.angularVelocity.(y := gyro.y);
            imuMsg.angularVelocity := imuMsg.angularVelocity.(z := gyro.z);

            imuMsg.orientation := imuMsg.orientation.(w := quats.w);
            imuMsg.orientation := imuMsg.orientation.(x := quats.x);
            imuMsg.orientation := imuMsg.orientation.(y := quats.y);
            imuMsg.orientation := imuMsg.orientation.(z := quats.z);

            published := published + [imuMsg.Value()];
            return;
          }
        }
      }
      // catch (std::runtime_error&)
      calls := calls + [Reconnect];
      if !t.reconnectOk {
        slept := true;
      }
    }
  }
}
