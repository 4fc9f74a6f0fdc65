/** Values exchanged along the pipeline. Floats are exact reals within the `f32` range. */
module Models {

  const F32_MAX: real := 340282346638528859811704183484516925440.0

  type Float = x: real | -F32_MAX <= x <= F32_MAX witness 0.0

  datatype SensorReading =
    | Accel(x: Float, y: Float, z: Float, sensorId: string, timestampMs: nat, internalLen: nat)
    | Force(x: Float, y: Float, z: Float, sensorId: string, timestampMs: nat, internalLen: nat)
    | Thermo(celsius: Float, sensorId: string, timestampMs: nat, internalLen: nat)
  {
    /** The scalar that statistics are taken over. */
    function Value(): Float {
      match this
      case Accel(x, y, z, _, _, _) => (x + y + z) / 3.0
      case Force(x, y, z, _, _, _) => (x + y + z) / 3.0
      case Thermo(celsius, _, _, _) => celsius
    }
  }

  datatype SensorStats = SensorStats(
    count: nat, min: real, max: real, sum: real, sumSq: real, avg: real, stddev: real)

  /** The description text is left to the reader of `value` and `mean`. */
  datatype Anomaly = Anomaly(sensorId: string, severity: real, value: real, mean: real)

  datatype Frame = Frame(
    frameId: nat, windowStart: nat, windowEnd: nat,
    sensorStats: map<string, SensorStats>,
    anomalies: seq<Anomaly>,
    internalMax: map<string, nat>)

  /** The scalar is the mean of the three axes, or the temperature as it is. */
  lemma ValueIsMeanOfAxes(r: SensorReading)
    ensures r.Accel? ==> r.Value() + r.Value() + r.Value() == r.x + r.y + r.z
    ensures r.Force? ==> r.Value() + r.Value() + r.Value() == r.x + r.y + r.z
    ensures r.Thermo? ==> r.Value() == r.celsius
  {
  }
}
