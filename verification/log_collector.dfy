/** The host log collector (`log_collector.py`): the rules that turn one
    line of an SSH server's auth log into an alert, and the telemetry record
    an alert becomes. The SSH session that tails the log and the HTTP
    notification are not modelled; the clock and the collector's host
    address are parameters. */
module LogCollector {
  import opened Wrappers
  import opened Text

  /** What a matching line raises. */
  datatype Alert = Alert(kind: string, riskScore: int, details: string)

  /** The telemetry record built for an alert (`push_alert`). */
  datatype LogTelemetry = LogTelemetry(
    timestamp: string,
    sourceIp: string,
    destinationIp: string,
    protocol: string,
    packetSize: int,
    destPort: int,
    kind: string,
    riskScore: int,
    confidence: real,
    logLine: string,
    origin: string)

  const FailedLogin: string := "Failed password"
  const AcceptedLogin: string := "Accepted password"

  /** `process_line` up to the dispatch: the stripped line is checked
      against the rules in order and the first that matches decides; a
      blank line or a line no rule matches raises nothing. */
  function Classify(line: string): (r: Option<Alert>)
    ensures var s := Strip(line);
            && (Contains(s, FailedLogin) ==> r == Some(Alert("SSH Brute Force", 75, s)))
            && (!Contains(s, FailedLogin) && Contains(s, AcceptedLogin) ==>
                  r == Some(Alert("SSH Successful Login", 50, s)))
            && (!Contains(s, FailedLogin) && !Contains(s, AcceptedLogin)
                && Contains(s, "sudo:") && Contains(s, "COMMAND") ==>
                  r == Some(Alert("Privilege Escalation (Sudo)", 60, s)))
            && (r.None? <==> !Contains(s, FailedLogin) && !Contains(s, AcceptedLogin)
                              && !(Contains(s, "sudo:") && Contains(s, "COMMAND")))
  {
    var s := Strip(line);
    if s == "" then None
    else if Contains(s, FailedLogin) then Some(Alert("SSH Brute Force", 75, s))
    else if Contains(s, AcceptedLogin) then Some(Alert("SSH Successful Login", 50, s))
    else if Contains(s, "sudo:") && Contains(s, "COMMAND") then Some(Alert("Privilege Escalation (Sudo)", 60, s))
    else None
  }

  /** A line that is blank after stripping raises nothing, and an alert
      always carries the stripped, non-blank line and one of the three risk
      levels. */
  lemma AlertsCarryTheLine(line: string)
    ensures Strip(line) == "" ==> Classify(line).None?
    ensures Classify(line).Some? ==>
              && Classify(line).value.details == Strip(line) != ""
              && Classify(line).value.riskScore in {50, 60, 75}
  {
    if Strip(line) == "" {
      assert !Contains("", FailedLogin);
      assert !Contains("", AcceptedLogin);
      assert !Contains("", "sudo:");
    }
  }

  /** Surrounding whitespace never matters: classifying the stripped line
      gives the same outcome. */
  lemma ClassifyIgnoresPadding(line: string)
    ensures Classify(Strip(line)) == Classify(line)
  {
    StripIdempotent(line);
  }

  /** `push_alert`: the alert's label, risk and line, with confidence 1.0,
      port 22 and protocol SYSLOG, from the collector's host to "Local". */
  function BuildTelemetry(a: Alert, now: string, host: string): (t: LogTelemetry)
    ensures t.kind == a.kind && t.riskScore == a.riskScore && t.logLine == a.details
    ensures t.confidence == 1.0 && t.destPort == 22 && t.protocol == "SYSLOG" && t.packetSize == 0
    ensures t.sourceIp == host && t.destinationIp == "Local" && t.origin == "HIDS" && t.timestamp == now
  {
    LogTelemetry(now, host, "Local", "SYSLOG", 0, 22, a.kind, a.riskScore, 1.0, a.details, "HIDS")
  }

  /** One line end to end: the telemetry pushed, if any. */
  function ProcessLine(line: string, now: string, host: string): (r: Option<LogTelemetry>)
    ensures r.Some? <==> Classify(line).Some?
    ensures r.Some? ==> r.value.kind == Classify(line).value.kind && r.value.logLine == Strip(line)
  {
    match Classify(line)
    case None => None
    case Some(a) => Some(BuildTelemetry(a, now, host))
  }

  /** A failed login outranks everything else on the line, even a later
      "Accepted password". */
  lemma FailedLoginWins(middle: string)
    ensures var line := FailedLogin + middle + AcceptedLogin;
            Classify(line) == Some(Alert("SSH Brute Force", 75, line))
  {
    var line := FailedLogin + middle + AcceptedLogin;
    assert Strip(line) == line by {
      assert line[0] == 'F' && line[|line| - 1] == 'd';
      StripUnpadded(line);
    }
    assert Contains(line, FailedLogin) by {
      assert FailedLogin <= line;
      ContainsPrefix(line, FailedLogin);
    }
  }
}
