/**
 * `detect_service` (src/main.rs): a best guess at the service behind an
 * open port, from the banner it sent first and, failing that, from a fixed
 * table of well-known ports.
 */
module Service {
  import opened Wrappers
  import opened Text

  /** The table the Rust code builds with `HashMap::insert` on every call. */
  const WellKnownPorts: map<int, string> := map[
    22 := "SSH", 80 := "HTTP", 443 := "HTTPS", 21 := "FTP", 25 := "SMTP",
    3306 := "MySQL", 5432 := "PostgreSQL", 3389 := "RDP", 5900 := "VNC"
  ]

  /** `m.get(&port)`. */
  function TableService(port: int): Option<string> {
    if port in WellKnownPorts then Some(WellKnownPorts[port]) else None
  }

  /** The banner rules, in order: "SSH-" anywhere, then "HTTP/" or "Server:" anywhere, then a "220 " prefix. */
  function BannerService(b: string): Option<string> {
    if Contains(b, "SSH-") then Some("SSH")
    else if Contains(b, "HTTP/") || Contains(b, "Server:") then Some("HTTP")
    else if "220 " <= b then Some("SMTP/FTP")
    else None
  }

  /** `detect_service(port, banner)`: a banner rule that matches wins over the table. */
  function DetectService(port: int, banner: Option<string>): Option<string> {
    if banner.Some? && BannerService(banner.value).Some? then BannerService(banner.value)
    else TableService(port)
  }

  /** A banner containing "SSH-" is SSH, whatever the port. */
  lemma SshBannerWins(port: int, b: string)
    ensures Contains(b, "SSH-") ==> DetectService(port, Some(b)) == Some("SSH")
  {
  }

  /** Without "SSH-", a banner containing "HTTP/" or "Server:" is HTTP, whatever the port. */
  lemma HttpBannerRule(port: int, b: string)
    ensures !Contains(b, "SSH-") && (Contains(b, "HTTP/") || Contains(b, "Server:")) ==>
      DetectService(port, Some(b)) == Some("HTTP")
  {
  }

  /** Failing both, a banner that starts with "220 " is SMTP/FTP, whatever the port. */
  lemma GreetingBannerRule(port: int, b: string)
    ensures !Contains(b, "SSH-") && !Contains(b, "HTTP/") && !Contains(b, "Server:") && "220 " <= b ==>
      DetectService(port, Some(b)) == Some("SMTP/FTP")
  {
  }

  /** When a banner rule matches, the port number is irrelevant. */
  lemma BannerOutranksTable(p: int, q: int, b: string)
    requires BannerService(b).Some?
    ensures DetectService(p, Some(b)) == DetectService(q, Some(b)) == BannerService(b)
  {
  }

  /**
   * With no banner, or a banner no rule matches, the answer is exactly the
   * table entry, and there is one only for the nine listed ports.
   */
  lemma TableFallback(port: int, banner: Option<string>)
    requires banner.None? || BannerService(banner.value).None?
    ensures DetectService(port, banner) == DetectService(port, None)
    ensures DetectService(port, banner).Some? <==>
      port in {22, 80, 443, 21, 25, 3306, 5432, 3389, 5900}
    ensures port == 22 ==> DetectService(port, banner) == Some("SSH")
    ensures port == 80 ==> DetectService(port, banner) == Some("HTTP")
    ensures port == 443 ==> DetectService(port, banner) == Some("HTTPS")
    ensures port == 21 ==> DetectService(port, banner) == Some("FTP")
    ensures port == 25 ==> DetectService(port, banner) == Some("SMTP")
    ensures port == 3306 ==> DetectService(port, banner) == Some("MySQL")
    ensures port == 5432 ==> DetectService(port, banner) == Some("PostgreSQL")
    ensures port == 3389 ==> DetectService(port, banner) == Some("RDP")
    ensures port == 5900 ==> DetectService(port, banner) == Some("VNC")
  {
  }

  /** Every label the classifier can give. */
  lemma ServiceLabels(port: int, banner: Option<string>)
    ensures DetectService(port, banner).Some? ==>
      DetectService(port, banner).value in
        {"SSH", "HTTP", "HTTPS", "FTP", "SMTP", "SMTP/FTP", "MySQL", "PostgreSQL", "RDP", "VNC"}
  {
  }

  /** With no banner, the table alone decides. */
  lemma NoBannerExamples()
    ensures DetectService(22, None) == Some("SSH")
    ensures DetectService(9999, None) == None
  {
  }

  /** An SSH identification string makes an unlisted port SSH. */
  lemma SshBannerExample()
    ensures DetectService(9999, Some("SSH-2.0-OpenSSH")) == Some("SSH")
  {
    assert "SSH-" <= "SSH-2.0-OpenSSH";
  }

  /** An HTTP status line is HTTP. */
  lemma HttpBannerExample()
    ensures DetectService(80, Some("HTTP/1.1 200 OK")) == Some("HTTP")
  {
    var line := "HTTP/1.1 200 OK";
    MissingCharNotContained(line, "SSH-", 'S');
    assert "HTTP/" <= line;
  }
}
