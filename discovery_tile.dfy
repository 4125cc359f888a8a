/**
 * The HyperHDR discovery tile: the display name derived from the advertised service
 * name, and the device record built when "Connect" is pressed.
 */
module DiscoveryTile {
  import opened Wrappers
  import opened JsString

  /** A discovered service; `serviceType` is the `type` field of the source. */
  datatype HyperhdrDevice = HyperhdrDevice(
    name: string, fullName: Option<string>, host: Option<string>, addresses: Option<seq<string>>,
    port: Option<int>, txt: Option<map<string, string>>, serviceType: Option<string>,
    protocol: Option<string>, domain: Option<string>,
    customBackendUrl: Option<string>, hyperHdrUrl: Option<string>)

  const OnMarker := " on "

  /** Everything after the cut point: trimmed, cut at the first '-', trimmed again. */
  function CleanTail(tail: string): string
  {
    Trim(Split(Trim(tail), '-')[0])
  }

  /**
   * The tile's initial name: the text after the last " on " (or, when there is none,
   * after index 3, since `lastIndexOf` gives -1), cleaned by `CleanTail`.
   */
  function DisplayName(deviceName: string): (r: string)
    ensures '-' !in r
    ensures r != [] ==> !IsWhitespace(r[0]) && !IsWhitespace(r[|r| - 1])
  {
    var t := Trim(Substring(deviceName, LastIndexOf(deviceName, OnMarker) + 4));
    var piece := Split(t, '-')[0];
    TrimKeepsOut(piece, '-');
    CleanTail(Substring(deviceName, LastIndexOf(deviceName, OnMarker) + 4))
  }

  /** With an occurrence of " on ", the name comes from the text after the last one. */
  lemma DisplayNameAfterLastOn(deviceName: string, i: int)
    requires OccursAt(deviceName, OnMarker, i)
    requires forall j :: i < j ==> !OccursAt(deviceName, OnMarker, j)
    ensures DisplayName(deviceName) == CleanTail(deviceName[i + 4..])
  {
    var l := LastIndexOf(deviceName, OnMarker);
    assert OccursAt(deviceName, OnMarker, i);
    assert l == -1 || OccursAt(deviceName, OnMarker, l);
    assert l == i;
  }

  /** Without " on ", the first three characters are dropped (everything, for a shorter name). */
  lemma DisplayNameWithoutOn(deviceName: string)
    requires forall j :: !OccursAt(deviceName, OnMarker, j)
    ensures |deviceName| < 3 ==> DisplayName(deviceName) == []
    ensures |deviceName| >= 3 ==> DisplayName(deviceName) == CleanTail(deviceName[3..])
  {
    var l := LastIndexOf(deviceName, OnMarker);
    assert l == -1;
    if |deviceName| < 3 {
      assert Trim([]) == [];
      SplitNoSeparator([], '-');
    }
  }

  // ---------------------------------------------------------------- selectedDevice

  /** JavaScript truthiness of an optional string: present and not empty. */
  predicate HostGiven(host: Option<string>)
  {
    host.Some? && host.value != ""
  }

  /** JavaScript truthiness of an optional port: present and not zero. */
  predicate PortGiven(port: Option<int>)
  {
    port.Some? && port.value != 0
  }

  function BackendUrl(host: string, port: int): string
  {
    "http://" + host + ":" + IntToString(port)
  }

  function HyperHdrUrl(host: string): string
  {
    "http://" + host + ":8090"
  }

  /**
   * The record built on "Connect": the device, with `customBackendUrl` set when host
   * and port are given, and `hyperHdrUrl` set when the host is given; a field whose
   * condition fails keeps whatever value it had.
   */
  function SelectedDevice(d: HyperhdrDevice): (r: HyperhdrDevice)
    ensures r.(customBackendUrl := d.customBackendUrl, hyperHdrUrl := d.hyperHdrUrl) == d
    ensures HostGiven(d.host) && PortGiven(d.port) ==> r.customBackendUrl == Some(BackendUrl(d.host.value, d.port.value))
    ensures !(HostGiven(d.host) && PortGiven(d.port)) ==> r.customBackendUrl == d.customBackendUrl
    ensures HostGiven(d.host) ==> r.hyperHdrUrl == Some(HyperHdrUrl(d.host.value))
    ensures !HostGiven(d.host) ==> r.hyperHdrUrl == d.hyperHdrUrl
  {
    var withBackend :=
      if HostGiven(d.host) && PortGiven(d.port)
      then d.(customBackendUrl := Some(BackendUrl(d.host.value, d.port.value)))
      else d;
    if HostGiven(d.host) then withBackend.(hyperHdrUrl := Some(HyperHdrUrl(d.host.value))) else withBackend
  }

  /** Pressing "Connect" again on the built record builds the same record. */
  lemma SelectedDeviceIdempotent(d: HyperhdrDevice)
    ensures SelectedDevice(SelectedDevice(d)) == SelectedDevice(d)
  {
  }

  /** The backend URL can be read back: host between "http://" and the last ':', then the port in decimal. */
  lemma BackendUrlReadsBack(host: string, port: nat)
    ensures var url := BackendUrl(host, port);
            var s := |"http://"| + |host|;
            && url[..7] == "http://" && url[7..s] == host && url[s] == ':'
            && AllDigits(url[s + 1..]) && DecimalValue(url[s + 1..]) == port
  {
    var url := BackendUrl(host, port);
    var s := |"http://"| + |host|;
    assert url[s + 1..] == NatToString(port);
    DecimalValueOfNatToString(port);
  }
}
