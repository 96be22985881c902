/** The data every component shares. */
module Model {

  datatype Option<+T> = None | Some(value: T)

  /** A device type is a string in the registry; only these three names mean something to the logic. */
  datatype DeviceType = PV | Battery | Load | Other(name: string)

  datatype Device = Device(id: string, siteID: string, kind: DeviceType, criticalLoad: bool)

  datatype Telemetry = Telemetry(deviceID: string, siteID: string, kind: DeviceType, timestamp: int,
                                 metrics: map<string, real>, state: string, seqNo: int)

  /** The aggregate of one site. `lastUpdated` is in seconds since 1970. */
  datatype SiteSummary = SiteSummary(siteID: string, pvPowerW: real, loadPowerW: real, batteryPower: real,
                                     netPowerW: real, avgSOC: real, lastUpdated: int)
}
