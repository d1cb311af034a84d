/** The codes and notifications the engine reports to its owner: the three
    enumerations of the shared header and one event per Qt signal of the
    engine. The device name every signal carries is the same for one engine
    and is left out of the events. */
module Signals {
  import Outgoing

  /** `errorCodes`, in declaration order. */
  datatype ErrorCode =
    | ErrorOpenPort
    | ErrorTimeoutWhileWaitData
    | ErrorTimeoutWhileWaitResponse
    | ErrorUskIsntResponse
    | ErrorUskIsntPresent
    | ErrorUskWrongPacket

  /** `uskInfoPackets`, in declaration order. */
  datatype InfoCode =
    | PacketUskReset
    | PacketUskSettingTime
    | PacketUskOn
    | PacketUskErrorReceivingRS

  /** `uskStates`: what `getUskStatus` reports. */
  datatype UskStatus = Present | Missing | Closed

  /** One emitted signal. Commands are identified by their payload where the
      source passes the command's description text. */
  datatype Event =
    | Error(code: ErrorCode)
    | UnknownCommand(command: string)
    | ErrorOnSendingCommand(failed: Outgoing.Payload)
    | CommandAccepted(accepted: Outgoing.Payload)
    | UskInfoPacketReceived(info: InfoCode)
    | PortIsOpen
    | PortIsClose
    | UskReset
    | ReceivedTextMessage(text: string)
    | UskIsPresent(present: bool, firstUse: bool)
    | StartSendingCommand(started: Outgoing.Payload)
    | DetectedNewKpu(newRay: int, newKpu: int)
    | DetectedDisconnectedKpu(lostRay: int, lostKpu: int)
    | VoltageStatusChanged(output: int, on: bool)
    | SensorChanged(ray: int, kpu: int, sensor: int, state: int)
}
