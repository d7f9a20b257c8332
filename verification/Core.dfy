/** The records that travel from a sensor to the central store. */
module Core {
  import opened Postcard

  datatype Option<+T> = None | Some(value: T)

  /** A ULID as the 128-bit number it stands for. */
  type Id = U128

  /** Nanoseconds since the Unix epoch. */
  type Timestamp = int

  datatype SensorMetric =
    | SoilMoisture(percent: Byte)
    | SoilTemp(celsius: real)
    | AirTemp(celsius: real)
    | Humidity(percent: Byte)
    | Rainfall(millimetres: real)

  datatype SensorReading = SensorReading(
    id: Id,
    deviceId: Id,
    dispatcherId: Id,
    metric: SensorMetric,
    location: U64,
    confidence: Byte,
    timestamp: Timestamp,
    sensorId: Id)

  datatype DeviceErrorCode = LowBattery | SensorFault | RadioFault | Unknown

  datatype DeviceError = DeviceError(code: DeviceErrorCode, message: Option<string>)

  datatype SensorState = Active | Faulty | Inactive

  datatype SensorStatus = SensorStatus(sensorId: Id, state: SensorState, lastReading: Option<Timestamp>)

  datatype DeviceStatus = DeviceStatus(
    id: Id,
    deviceId: Id,
    dispatcherId: Id,
    batteryPercent: Byte,
    uptimeSeconds: U64,
    signalRssi: I16,
    errors: seq<DeviceError>,
    timestamp: Timestamp,
    sensorStatuses: seq<SensorStatus>)
}
