/**
 * Construction of the Modbus heat-pump client: the host must be set, and the
 * port must be the Modbus default 502 or lie in the range 49152..65535 that
 * the installer menu allows. The register read itself is network I/O and is
 * not part of this model.
 */
module Heatpump {
  import opened Wrappers

  /** Why NewHeatpumpClient refused its arguments. */
  datatype SetupError =
      /** "Please set the ip address of your Alpha Innotec heatpump ..." */
    | HostMissing
      /** "... to its default 502, or anywhere between 49152 and 65535 ..." */
    | PortOutOfRange

  /** What the constructed client holds. */
  datatype HeatpumpClient = HeatpumpClient(host: string, port: int, unitID: int)

  const DefaultModbusPort: int := 502
  const LowestCustomPort: int := 49152
  const HighestCustomPort: int := 65535

  /** The ports the client accepts. */
  predicate AcceptedPort(port: int) {
    port == DefaultModbusPort || LowestCustomPort <= port <= HighestCustomPort
  }

  /** The host is checked before the port; the unit id argument is not kept,
      so the client always carries unit id 0. */
  function NewHeatpumpClient(host: string, port: int, unitID: int): (r: Result<HeatpumpClient, SetupError>)
    ensures r.Success? <==> host != "" && AcceptedPort(port)
    ensures r.Success? ==> r.value == HeatpumpClient(host, port, 0)
    ensures host == "" ==> r == Failure(HostMissing)
    ensures host != "" && !AcceptedPort(port) ==> r == Failure(PortOutOfRange)
  {
    if host == "" then Failure(HostMissing)
    else if port != 502 && (port < 49152 || port > 65535) then Failure(PortOutOfRange)
    else Success(HeatpumpClient(host, port, 0))
  }

  /** The boundaries of the accepted ports: 502 and both ends of the custom
      range are accepted, their neighbours outside it are refused. */
  lemma PortBoundaries(unitID: int)
    ensures NewHeatpumpClient("10.0.0.5", 502, unitID).Success?
    ensures NewHeatpumpClient("10.0.0.5", 501, unitID) == Failure(PortOutOfRange)
    ensures NewHeatpumpClient("10.0.0.5", 503, unitID) == Failure(PortOutOfRange)
    ensures NewHeatpumpClient("10.0.0.5", 49151, unitID) == Failure(PortOutOfRange)
    ensures NewHeatpumpClient("10.0.0.5", 49152, unitID).Success?
    ensures NewHeatpumpClient("10.0.0.5", 65535, unitID).Success?
    ensures NewHeatpumpClient("10.0.0.5", 65536, unitID) == Failure(PortOutOfRange)
  {
  }

  /** Every port of the custom range is accepted, and the unit id given is
      dropped. */
  lemma CustomRangeAccepted(host: string, port: int, unitID: int)
    requires host != "" && 49152 <= port <= 65535
    ensures NewHeatpumpClient(host, port, unitID) == Success(HeatpumpClient(host, port, 0))
  {
  }

  /** An empty host is reported even when the port is also wrong. */
  lemma HostCheckedFirst(port: int, unitID: int)
    requires !AcceptedPort(port)
    ensures NewHeatpumpClient("", port, unitID) == Failure(HostMissing)
  {
  }
}
