/** The shapes shared by the core (lib/types/index.ts), with the JSON field
    names in camelCase. Firestore timestamps are milliseconds since the
    epoch; `null` is `None`. */
module Types {
  import opened Base

  datatype DeviceType = Mobile | Tablet | Desktop | Unknown

  datatype DeviceInfo = DeviceInfo(
    deviceType: DeviceType,
    browser: string,
    browserVersion: string,
    os: string,
    osVersion: string,
    userAgent: string)

  /** The payload `storeTrackingData` receives. */
  datatype TrackingRequest = TrackingRequest(
    fingerprint: string,
    campaignId: string,
    targetUrl: string,
    serverHash: string,
    clientHash: string,
    device: DeviceInfo,
    referrer: Option<string>,
    ip: Option<string>,
    language: string)

  /** A click document as `storeTrackingData` writes it. */
  datatype ClickData = ClickData(
    fingerprint: string,
    campaignId: string,
    targetUrl: string,
    firstClick: Millis,
    lastClick: Millis,
    createdAt: Millis,
    updatedAt: Millis,
    clickCount: int,
    device: DeviceInfo,
    referrer: Option<string>,
    ip: Option<string>,
    language: string,
    serverHash: string,
    clientHash: string)
}
