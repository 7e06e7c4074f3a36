/**
 * One probe of the scan (the task spawned per port in src/main.rs): the
 * outcome of the connection attempt under its deadline is turned into a
 * `PortResult`. The attempt itself, the banner read and the clock are
 * inputs here: `ConnectOutcome` says what they produced.
 */
module Probe {
  import opened Wrappers
  import opened Text
  import Service

  datatype PortStatus = Open | Closed | Filtered

  /** One `PortResult`; `durationMs` is the time since the scan began, an opaque input. */
  datatype PortResult = PortResult(
    port: int,
    status: PortStatus,
    banner: Option<string>,
    service: Option<string>,
    durationMs: nat)

  /** The `std::io::ErrorKind`s a failed connect can report; only the first is told apart. */
  datatype IoErrorKind = ConnectionRefused | ConnectionReset | HostUnreachable | NetworkUnreachable | OtherKind

  /**
   * What the banner read under its 1200 ms deadline produced. `Received`
   * carries the bytes read already decoded as text (lossily), so it is
   * empty exactly when the read returned 0 bytes.
   */
  datatype BannerRead = Received(text: string) | ReadFailed | ReadTimedOut

  /** The result of `timeout(conn_timeout, TcpStream::connect(addr))`, plus the banner read once connected. */
  datatype ConnectOutcome =
    | Connected(read: BannerRead)
    | ConnectFailed(kind: IoErrorKind)
    | ConnectTimedOut

  /** `grab_banner(..).ok()`: the text with trailing whitespace trimmed, or nothing if no byte came. */
  function GrabBanner(read: BannerRead): (b: Option<string>)
    ensures b.Some? <==> read.Received? && read.text != []
    ensures b.Some? ==> b.value <= read.text && AllWhitespace(read.text[|b.value|..])
    ensures b.Some? && b.value != [] ==> !IsWhitespace(b.value[|b.value| - 1])
  {
    match read
    case Received(text) => if text != [] then Some(TrimEnd(text)) else None
    case _ => None
  }

  /** The invariant every result of a probe keeps: only an open port has a banner or a service, and its service is the classifier's. */
  predicate Consistent(r: PortResult) {
    (r.status != Open ==> r.banner == None && r.service == None)
    && (r.status == Open ==> r.service == Service.DetectService(r.port, r.banner))
  }

  /** The `match connect_res` of the probe task. */
  function ProbeResult(port: int, outcome: ConnectOutcome, elapsedMs: nat): (r: PortResult)
    ensures r.port == port && r.durationMs == elapsedMs
    ensures Consistent(r)
    ensures r.status == Open <==> outcome.Connected?
    ensures r.status == Closed <==> outcome == ConnectFailed(ConnectionRefused)
    ensures r.status == Filtered <==> outcome.ConnectTimedOut? || (outcome.ConnectFailed? && outcome.kind != ConnectionRefused)
    ensures outcome.Connected? ==> r.banner == GrabBanner(outcome.read)
  {
    match outcome
    case Connected(read) =>
      var banner := GrabBanner(read);
      PortResult(port, Open, banner, Service.DetectService(port, banner), elapsedMs)
    case ConnectFailed(ConnectionRefused) =>
      PortResult(port, Closed, None, None, elapsedMs)
    case _ =>
      PortResult(port, Filtered, None, None, elapsedMs)
  }

  /** An ambiguous failure (timeout, unreachable, reset, ...) is never reported as closed. */
  lemma AmbiguousFailureIsFiltered(port: int, outcome: ConnectOutcome, elapsedMs: nat)
    requires !outcome.Connected? && outcome != ConnectFailed(ConnectionRefused)
    ensures ProbeResult(port, outcome, elapsedMs).status == Filtered
    ensures ProbeResult(port, outcome, elapsedMs).banner == None
    ensures ProbeResult(port, outcome, elapsedMs).service == None
  {
  }

  /** A failed or empty banner read leaves the port open, classified by the table alone. */
  lemma SilentOpenPortUsesTable(port: int, read: BannerRead, elapsedMs: nat)
    requires !(read.Received? && read.text != [])
    ensures ProbeResult(port, Connected(read), elapsedMs).status == Open
    ensures ProbeResult(port, Connected(read), elapsedMs).service == Service.TableService(port)
  {
  }

  /** Four ports of one scan: an SSH server, a web server, a refused port and a silent one. */
  lemma ScenarioExample()
    ensures ProbeResult(22, Connected(Received("SSH-2.0-Test\r\n")), 5).status == Open
    ensures ProbeResult(22, Connected(Received("SSH-2.0-Test\r\n")), 5).service == Some("SSH")
    ensures ProbeResult(80, Connected(Received("HTTP/1.1 200 OK\r\n")), 7).status == Open
    ensures ProbeResult(80, Connected(Received("HTTP/1.1 200 OK\r\n")), 7).service == Some("HTTP")
    ensures ProbeResult(81, ConnectFailed(ConnectionRefused), 5).status == Closed
    ensures ProbeResult(9, ConnectTimedOut, 100).status == Filtered
  {
    SshScenarioBanner();
    HttpScenarioBanner();
  }

  /** The SSH identification line keeps its "SSH-" prefix once its line end is trimmed. */
  lemma SshScenarioBanner()
    ensures GrabBanner(Received("SSH-2.0-Test\r\n")).Some?
    ensures Service.DetectService(22, GrabBanner(Received("SSH-2.0-Test\r\n"))) == Some("SSH")
  {
    var text := "SSH-2.0-Test\r\n";
    assert "SSH-" <= text;
    PrefixSurvivesTrimEnd(text, "SSH-");
  }

  /** The HTTP status line keeps its "HTTP/" prefix and holds no 'S', so no "SSH-". */
  lemma HttpScenarioBanner()
    ensures GrabBanner(Received("HTTP/1.1 200 OK\r\n")).Some?
    ensures Service.DetectService(80, GrabBanner(Received("HTTP/1.1 200 OK\r\n"))) == Some("HTTP")
  {
    var text := "HTTP/1.1 200 OK\r\n";
    assert "HTTP/" <= text;
    PrefixSurvivesTrimEnd(text, "HTTP/");
    var b := TrimEnd(text);
    assert 'S' !in text;
    assert 'S' !in b;
    MissingCharNotContained(b, "SSH-", 'S');
    Service.HttpBannerRule(80, b);
  }
}
