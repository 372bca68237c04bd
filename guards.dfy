/**
 * The decisions the program takes around its I/O, lifted out of their callbacks: whether
 * the cached response is stale, the network name read from the output of
 * `networksetup -getairportnetwork en0`, the station preference looked up for that network,
 * and whether a response reports an upstream error or is printed.
 */
module Guards {
  import opened Wrappers
  import opened Text
  import opened Response
  import opened Format

  datatype Error =
    | NoWifiAccess                       // the network-name command failed or said something else
    | ConfigNotFound                     // the configuration file is missing or not JSON
    | StationNotConfigured(network: string)

  // ---------------------------------------------------------------------------
  // Cache freshness

  /** How long a cached response is used, in milliseconds: three minutes. */
  const CacheDuration: int := 180 * 1000

  /**
   * Whether the cache must be refreshed at `now` (milliseconds): when the cache file cannot
   * be stat'ed (`ctime` is None) or its status-change time `ctime` lies more than
   * `CacheDuration` in the past.
   */
  predicate IsStale(ctime: Option<int>, now: int) {
    ctime.None? || now - ctime.value > CacheDuration
  }

  datatype Step = ReadCache | Refresh

  /** The first decision of the entry point: read the cache or fetch anew. */
  function NextStep(ctime: Option<int>, now: int): (s: Step)
    ensures s == Refresh <==> ctime.None? || now - ctime.value > 180000
  {
    if IsStale(ctime, now) then Refresh else ReadCache
  }

  /** A cache is fresh up to and including an age of exactly three minutes, stale one millisecond later. */
  lemma FreshnessBoundary(ctime: int)
    ensures NextStep(Some(ctime), ctime) == ReadCache
    ensures NextStep(Some(ctime), ctime + 180000) == ReadCache
    ensures NextStep(Some(ctime), ctime + 180001) == Refresh
  {
  }

  /** Once stale, a cache stays stale as time goes on. */
  lemma StaleStaysStale(ctime: Option<int>, now: int, later: int)
    requires IsStale(ctime, now) && now <= later
    ensures IsStale(ctime, later)
  {
  }

  // ---------------------------------------------------------------------------
  // The network name

  const WifiPrefix: string := "Current Wi-Fi Network: "

  /**
   * The network name from the command's outcome: an error when the command failed (`err`),
   * wrote to standard error, or its output does not have the prefix as the last and only
   * occurrence at position 0; otherwise the output after the 23 characters of the prefix,
   * trimmed.
   */
  function NetworkName(err: bool, stdout: string, stderr: string): (r: Result<string, Error>)
    ensures r.Err? ==> r.error == NoWifiAccess
  {
    if err || stderr != "" || LastIndexOf(stdout, WifiPrefix) != 0 then Err(NoWifiAccess)
    else Ok(Trim(stdout[23..]))
  }

  /**
   * The command's outcome is accepted exactly when it succeeded, wrote nothing to standard
   * error, begins with the prefix and holds the prefix nowhere else; an accepted name
   * neither begins nor ends with white space.
   */
  lemma NetworkNameSpec(err: bool, stdout: string, stderr: string)
    ensures NetworkName(err, stdout, stderr).Ok? <==>
              && !err && stderr == ""
              && StartsWith(stdout, WifiPrefix)
              && forall j :: 0 < j ==> !OccursAt(stdout, WifiPrefix, j)
    ensures NetworkName(err, stdout, stderr).Ok? ==>
              var name := NetworkName(err, stdout, stderr).value;
              && name == Trim(stdout[|WifiPrefix|..])
              && Trimmed(name)
  {
    assert |WifiPrefix| == 23;
    assert StartsWith(stdout, WifiPrefix) <==> OccursAt(stdout, WifiPrefix, 0) by {
      if |WifiPrefix| <= |stdout| {
        assert stdout[..|WifiPrefix|] == stdout[0..0 + |WifiPrefix|];
      }
    }
    if OccursAt(stdout, WifiPrefix, 0) {
      assert LastIndexOf(stdout, WifiPrefix) >= 0;
    }
  }

  /** Output in which the prefix comes again later is refused, whatever lies between. */
  lemma RepeatedPrefixRefused(s: string)
    ensures NetworkName(false, WifiPrefix + s + WifiPrefix, "") == Err(NoWifiAccess)
  {
    var out := WifiPrefix + s + WifiPrefix;
    var j := |WifiPrefix| + |s|;
    assert out[j..j + |WifiPrefix|] == WifiPrefix;
    assert OccursAt(out, WifiPrefix, j);
  }

  /** The only colon of the prefix is its 22nd character. */
  lemma PrefixColon()
    ensures forall i :: 0 <= i < |WifiPrefix| && WifiPrefix[i] == ':' ==> i == 21
  {
  }

  /**
   * The round trip: the output the command prints for a network `name` that neither begins
   * nor ends with white space, followed by white space such as the final line feed, yields
   * `name`, provided the prefix does not occur again further on.
   */
  lemma NetworkNameRoundTrip(name: string, ws: string)
    requires Trimmed(name)
    requires AllSpace(ws)
    requires forall j :: 0 < j ==> !OccursAt(WifiPrefix + name + ws, WifiPrefix, j)
    ensures NetworkName(false, WifiPrefix + name + ws, "") == Ok(name)
  {
    var out := WifiPrefix + name + ws;
    assert OccursAt(out, WifiPrefix, 0) by {
      assert out[..|WifiPrefix|] == WifiPrefix;
    }
    assert LastIndexOf(out, WifiPrefix) == 0;
    assert out[23..] == name + ws;
    TrimSurrounded(name, ws);
  }

  /** In particular, a name without a colon always comes back: the prefix cannot occur again. */
  lemma NameWithoutColonRoundTrip(name: string, ws: string)
    requires Trimmed(name)
    requires ':' !in name
    requires AllSpace(ws)
    ensures NetworkName(false, WifiPrefix + name + ws, "") == Ok(name)
  {
    var out := WifiPrefix + name + ws;
    PrefixColon();
    forall j | 0 < j
      ensures !OccursAt(out, WifiPrefix, j)
    {
      NoLaterPrefix(out, j);
    }
    NetworkNameRoundTrip(name, ws);
  }

  /** The round trip holds for names with a colon too, such as "Cafe: Guest". */
  lemma ColonNameRoundTrip()
    ensures NetworkName(false, WifiPrefix + "Cafe: Guest" + "\n", "") == Ok("Cafe: Guest")
  {
    var name, ws := "Cafe: Guest", "\n";
    var out := WifiPrefix + name + ws;
    assert |out| == 35;
    forall j | 0 < j
      ensures !OccursAt(out, WifiPrefix, j)
    {
      if j < |WifiPrefix| {
        assert out[..|WifiPrefix|] == WifiPrefix;
        NoSecondStart(out, j);
      }
    }
    NetworkNameRoundTrip(name, ws);
  }

  /** The prefix holds its first letter "C" nowhere else. */
  lemma PrefixInitial()
    ensures WifiPrefix[0] == 'C'
    ensures forall i :: 0 < i < |WifiPrefix| ==> WifiPrefix[i] != 'C'
  {
  }

  /** In an output that begins with the prefix, the prefix cannot start again inside it. */
  lemma NoSecondStart(out: string, j: int)
    requires StartsWith(out, WifiPrefix) && 0 < j < |WifiPrefix|
    ensures !OccursAt(out, WifiPrefix, j)
  {
    PrefixInitial();
    assert out[j] == out[..|WifiPrefix|][j];
    if j + |WifiPrefix| <= |out| {
      assert out[j..j + |WifiPrefix|][0] == out[j];
    }
  }

  /** The prefix cannot start again at a position whose 22nd character on is not a colon. */
  lemma NoLaterPrefix(out: string, j: int)
    requires 0 < j
    requires j + 21 < |out| ==> out[j + 21] != ':'
    ensures !OccursAt(out, WifiPrefix, j)
  {
  }

  /** Trimming a name followed by white space gives back the name. */
  lemma TrimSurrounded(name: string, ws: string)
    requires Trimmed(name)
    requires AllSpace(ws)
    ensures Trim(name + ws) == name
  {
    var s := name + ws;
    assert s[0..|name|] == name;
    assert forall j :: |name| <= j < |s| ==> s[j] == ws[j - |name|];
    TrimUnique(s, 0, name);
  }

  // ---------------------------------------------------------------------------
  // The station preference

  /**
   * A value of the configuration object: an entry with (possibly missing) `stop` and
   * `headsign` fields, or anything else (a string such as the API key, a number, null).
   */
  datatype RcValue = Entry(stop: Option<string>, headsign: Option<string>) | NotEntry

  /**
   * The preference for `network` from the parsed configuration (None when the file is
   * missing or not JSON): an error unless the network has an entry with a non-empty stop.
   */
  function StationFor(rc: Option<map<string, RcValue>>, network: string): (r: Result<StationPref, Error>)
    ensures rc.None? <==> r == Err(ConfigNotFound)
  {
    if rc.None? then Err(ConfigNotFound)
    else if network !in rc.value then Err(StationNotConfigured(network))
    else
      var config := rc.value[network];
      if !config.Entry? || config.stop.None? || config.stop.value == "" then Err(StationNotConfigured(network))
      else Ok(StationPref(config.stop.value, config.headsign))
  }

  /**
   * A preference is found exactly when the network has an entry with a non-empty stop; it
   * then carries that entry's stop and headsign, and every other failure names the network.
   */
  lemma StationForSpec(rc: Option<map<string, RcValue>>, network: string)
    ensures StationFor(rc, network).Ok? <==>
              && rc.Some? && network in rc.value
              && rc.value[network].Entry?
              && rc.value[network].stop.Some? && rc.value[network].stop.value != ""
    ensures StationFor(rc, network).Ok? ==>
              StationFor(rc, network).value ==
                StationPref(rc.value[network].stop.value, rc.value[network].headsign)
    ensures rc.Some? && StationFor(rc, network).Err? ==> StationFor(rc, network).error == StationNotConfigured(network)
  {
  }

  /**
   * The pure part of refreshing: the network name from the command's outcome, then its
   * preference; a command that failed stops before the configuration is consulted.
   */
  function RefreshStation(err: bool, stdout: string, stderr: string, rc: Option<map<string, RcValue>>): (r: Result<StationPref, Error>)
    ensures NetworkName(err, stdout, stderr).Err? ==> r == Err(NoWifiAccess)
    ensures NetworkName(err, stdout, stderr).Ok? ==> r == StationFor(rc, NetworkName(err, stdout, stderr).value)
  {
    match NetworkName(err, stdout, stderr)
    case Err(e) => Err(e)
    case Ok(name) => StationFor(rc, name)
  }

  // ---------------------------------------------------------------------------
  // Printing

  /** The response reports an upstream error in its `error` or `errors` field. */
  predicate SignalsError(body: Body) {
    body.error || body.errors
  }

  /** What the program does with a response: log the body as it is, or print the status line. */
  datatype Outcome = LoggedBody | Printed(line: string)

  function ExitCode(o: Outcome): int {
    if o.LoggedBody? then 1 else 0
  }

  /**
   * `printOutput`: a response that reports an error is logged and the process exits with 1;
   * any other is formatted and printed, and the process exits with 0.
   */
  method PrintOutput(body: Body, pref: StationPref, now: int) returns (o: Outcome)
    requires SignalsError(body) || HasStop(body.included)
    ensures SignalsError(body) ==> o == LoggedBody
    ensures !SignalsError(body) ==> o == Printed(StatusLine(body, pref, now))
    ensures ExitCode(o) == 1 <==> SignalsError(body)
  {
    if body.error || body.errors {
      return LoggedBody;
    }
    var line := FormatOutput(body, pref, now);
    return Printed(line);
  }
}
