/** Value types of the `sensor_msgs/msg/Imu` message that the node publishes.
    Floating-point components are modelled as `real`; only how values are
    copied and laid out matters here, never their arithmetic. */
module Messages {

  datatype Option<+T> = None | Some(value: T)

  /** `geometry_msgs/msg/Vector3`: acceleration in m/s^2 or angular rate in rad/s. */
  datatype Vector3 = Vector3(x: real, y: real, z: real)

  /** `geometry_msgs/msg/Quaternion`. */
  datatype Quaternion = Quaternion(w: real, x: real, y: real, z: real)

  /** `std_msgs/msg/Header`; the stamp is a clock reading in nanoseconds. */
  datatype Header = Header(stamp: int, frameId: string)

  /** A snapshot of `sensor_msgs/msg/Imu`, as handed to the publisher. */
  datatype Imu = Imu(
    header: Header,
    orientation: Quaternion,
    orientationCovariance: seq<real>,
    angularVelocity: Vector3,
    angularVelocityCovariance: seq<real>,
    linearAcceleration: Vector3,
    linearAccelerationCovariance: seq<real>)

  /** The three covariance arrays of a message, the part no tick writes. */
  datatype Covariances = Covariances(orientation: seq<real>, angularVelocity: seq<real>, linearAcceleration: seq<real>)

  function CovariancesOf(m: Imu): Covariances {
    Covariances(m.orientationCovariance, m.angularVelocityCovariance, m.linearAccelerationCovariance)
  }

  /** Number of entries of each covariance array (a row-major 3x3 matrix). */
  const COVARIANCE_SIZE: nat := 9

  /** The zero vector, the identity quaternion (the message default has w = 1)
      and all-zero covariances: a freshly constructed `sensor_msgs::msg::Imu()`. */
  function DefaultImu(): (m: Imu)
    ensures |m.orientationCovariance| == |m.angularVelocityCovariance| == |m.linearAccelerationCovariance| == COVARIANCE_SIZE
  {
    var zeros := seq(COVARIANCE_SIZE, _ => 0.0);
    Imu(Header(0, ""), Quaternion(1.0, 0.0, 0.0, 0.0), zeros,
        Vector3(0.0, 0.0, 0.0), zeros, Vector3(0.0, 0.0, 0.0), zeros)
  }
}
