/**
 * The WiFi connection retry state machine
 * (MushroomChamberController/src/wifi_comm.cpp and wifi_comm.h).
 *
 * The module's file-scope statics become one `Link` record. The radio's
 * `WiFi.status() == WL_CONNECTED` and `millis()` are inputs of each call,
 * and the calls into the WiFi library (`WiFi.mode`, `WiFi.begin`,
 * `WiFi.disconnect`) are returned as radio commands.
 */
module WifiComm {
  import opened Clock

  datatype WiFiStatus = Disconnected | Connecting | Connected | ConnectionFailed | Reconnecting

  datatype WiFiConfig = WiFiConfig(
    ssid: string,
    password: string,
    serverUrl: string,
    retryInterval: nat,
    maxRetries: nat)

  /** The statics `config`, `currentStatus`, `lastError`, `lastAttemptTime` and `currentRetries`. */
  datatype Link = Link(
    config: WiFiConfig,
    status: WiFiStatus,
    lastError: string,
    lastAttemptTime: nat,
    retries: nat)

  /** A call into the WiFi library. */
  datatype RadioCommand = StationMode | Begin(ssid: string, password: string) | Disconnect

  datatype Tick = Tick(link: Link, commands: seq<RadioCommand>)

  const DefaultRetryInterval: nat := 10000
  const DefaultMaxRetries: nat := 5
  const ConnectionRetriesError: string := "Max connection retries exceeded"
  const ReconnectionRetriesError: string := "Max reconnection retries exceeded"

  /**
   * `wifiSetup`: store the credentials with the default retry policy, reset
   * the status, the counter and the error, and put the radio in station mode.
   */
  function WifiSetup(l: Link, ssid: string, password: string, serverUrl: string): (r: Tick)
    ensures r.link.config == WiFiConfig(ssid, password, serverUrl, DefaultRetryInterval, DefaultMaxRetries)
    ensures r.link.status == Disconnected && r.link.retries == 0 && r.link.lastError == ""
    ensures r.link.lastAttemptTime == l.lastAttemptTime
    ensures r.commands == [StationMode]
  {
    Tick(Link(WiFiConfig(ssid, password, serverUrl, DefaultRetryInterval, DefaultMaxRetries),
              Disconnected, "", l.lastAttemptTime, 0),
         [StationMode])
  }

  /** Reconnect with the stored credentials. */
  function Restart(c: WiFiConfig): seq<RadioCommand>
  {
    [Disconnect, Begin(c.ssid, c.password)]
  }

  /** One retry-timer expiry in CONNECTING or RECONNECTING: count the attempt, then give up or retry. */
  function RetryExpired(l: Link, now: nat, error: string): (r: Tick)
    ensures r.link.retries == l.retries + 1
    ensures r.link.retries >= l.config.maxRetries ==>
              r.link.status == ConnectionFailed && r.link.lastError == error
              && r.link.lastAttemptTime == l.lastAttemptTime && r.commands == []
    ensures r.link.retries < l.config.maxRetries ==>
              r.link.status == Reconnecting && r.link.lastError == l.lastError
              && r.link.lastAttemptTime == now && r.commands == Restart(l.config)
    ensures r.link.config == l.config
  {
    var retries := l.retries + 1;
    if retries >= l.config.maxRetries then
      Tick(l.(retries := retries, status := ConnectionFailed, lastError := error), [])
    else
      Tick(l.(retries := retries, status := Reconnecting, lastAttemptTime := now), Restart(l.config))
  }

  /** `wifiRetryLoop`, called with the radio's state and the current time. */
  function WifiRetryLoop(l: Link, radioConnected: bool, now: nat): (r: Tick)
    requires l.lastAttemptTime <= now
    ensures r.link.config == l.config
    // the radio is up
    ensures radioConnected && l.status != Connected ==>
              r.link == l.(status := Connected, retries := 0, lastError := "") && r.commands == []
    ensures radioConnected && l.status == Connected ==> r == Tick(l, [])
    // the radio is down
    ensures !radioConnected && l.status == Disconnected ==>
              r.link == l.(status := Connecting, lastAttemptTime := now)
              && r.commands == [Begin(l.config.ssid, l.config.password)]
    ensures !radioConnected && (l.status == Connecting || l.status == Reconnecting) ==>
              if now - l.lastAttemptTime < l.config.retryInterval then r == Tick(l, [])
              else r == RetryExpired(l, now, if l.status == Connecting then ConnectionRetriesError
                                              else ReconnectionRetriesError)
    ensures !radioConnected && (l.status == ConnectionFailed || l.status == Connected) ==> r == Tick(l, [])
    ensures r.link.lastAttemptTime <= now
  {
    if radioConnected then
      if l.status != Connected then Tick(l.(status := Connected, retries := 0, lastError := ""), [])
      else Tick(l, [])
    else
      match l.status
      case Disconnected =>
        Tick(l.(status := Connecting, lastAttemptTime := now), [Begin(l.config.ssid, l.config.password)])
      case Connecting =>
        if now - l.lastAttemptTime >= l.config.retryInterval then RetryExpired(l, now, ConnectionRetriesError)
        else Tick(l, [])
      case Reconnecting =>
        if now - l.lastAttemptTime >= l.config.retryInterval then RetryExpired(l, now, ReconnectionRetriesError)
        else Tick(l, [])
      case ConnectionFailed => Tick(l, [])
      case Connected => Tick(l, [])
  }

  /** `wifiConnected`: the radio is up and the state machine has noticed. */
  function WifiConnected(l: Link, radioConnected: bool): (b: bool)
    ensures b <==> radioConnected && l.status == Connected
  {
    radioConnected && l.status == Connected
  }

  /** One poll with the radio up makes `wifiConnected` true, from any status. */
  lemma ConnectedAfterRadioUp(l: Link, now: nat)
    requires l.lastAttemptTime <= now
    ensures WifiConnected(WifiRetryLoop(l, true, now).link, true)
    ensures l.status != Connected ==> WifiRetryLoop(l, true, now).link.retries == 0
  {
  }

  /**
   * A radio that drops while CONNECTED is not noticed by the retry loop: the
   * status stays CONNECTED, so `wifiConnected` must also ask the radio.
   */
  lemma DropGoesUnnoticed(l: Link, now: nat)
    requires l.lastAttemptTime <= now && l.status == Connected
    ensures WifiRetryLoop(l, false, now).link.status == Connected
    ensures !WifiConnected(WifiRetryLoop(l, false, now).link, false)
  {
  }

  /** After any run whose last poll saw the radio up, `wifiConnected` holds. */
  lemma {:induction false} RunEndsConnected(l: Link, samples: seq<Timed<bool>>)
    requires Monotone(l.lastAttemptTime, samples)
    requires |samples| > 0 && samples[|samples| - 1].value
    ensures WifiConnected(Run(l, samples), true)
    decreases |samples|
  {
    var next := WifiRetryLoop(l, samples[0].value, samples[0].now).link;
    MonotoneFromEarlier(next.lastAttemptTime, samples[0].now, samples[1..]);
    if |samples| == 1 {
      ConnectedAfterRadioUp(l, samples[0].now);
    } else {
      assert samples[1..][|samples[1..]| - 1] == samples[|samples| - 1];
      RunEndsConnected(next, samples[1..]);
    }
  }

  /** `getWiFiStatusString`: the enum constant's name, in capitals with underscores. */
  function StatusString(s: WiFiStatus): (name: string)
    ensures |name| > 0
    ensures forall i :: 0 <= i < |name| ==> 'A' <= name[i] <= 'Z' || name[i] == '_'
    ensures s == Disconnected <==> name == "DISCONNECTED"
    ensures s == Connecting <==> name == "CONNECTING"
    ensures s == Connected <==> name == "CONNECTED"
    ensures s == ConnectionFailed <==> name == "CONNECTION_FAILED"
    ensures s == Reconnecting <==> name == "RECONNECTING"
  {
    match s
    case Disconnected => "DISCONNECTED"
    case Connecting => "CONNECTING"
    case Connected => "CONNECTED"
    case ConnectionFailed => "CONNECTION_FAILED"
    case Reconnecting => "RECONNECTING"
  }

  /** Every status has its own, non-empty name. */
  lemma StatusStringInjective(a: WiFiStatus, b: WiFiStatus)
    ensures |StatusString(a)| > 0
    ensures StatusString(a) == StatusString(b) <==> a == b
  {
    if a != b {
      assert StatusString(a)[0] != StatusString(b)[0] || |StatusString(a)| != |StatusString(b)|;
    }
  }

  /** `setRetryInterval`. */
  function SetRetryInterval(l: Link, intervalMs: nat): (r: Link)
    ensures r.config.retryInterval == intervalMs
    ensures r.config.(retryInterval := l.config.retryInterval) == l.config
    ensures r.(config := l.config) == l
  {
    l.(config := l.config.(retryInterval := intervalMs))
  }

  /** `setMaxRetries`. */
  function SetMaxRetries(l: Link, retries: nat): (r: Link)
    ensures r.config.maxRetries == retries
    ensures r.config.(maxRetries := l.config.maxRetries) == l.config
    ensures r.(config := l.config) == l
  {
    l.(config := l.config.(maxRetries := retries))
  }

  /** `setServerUrl`. */
  function SetServerUrl(l: Link, url: string): (r: Link)
    ensures r.config.serverUrl == url
    ensures r.config.(serverUrl := l.config.serverUrl) == l.config
    ensures r.(config := l.config) == l
  {
    l.(config := l.config.(serverUrl := url))
  }

  /**
   * The retry counter never passes the limit, and while the machine is
   * still trying it is strictly below it.
   */
  predicate RetriesBounded(l: Link)
  {
    && l.config.maxRetries >= 1
    && l.retries <= l.config.maxRetries
    && (l.status in {Disconnected, Connecting, Reconnecting} ==> l.retries < l.config.maxRetries)
  }

  /** The setters keep the bound, provided a new limit stays above the attempts already made. */
  lemma SettersKeepBounded(l: Link, intervalMs: nat, maxRetries: nat, url: string)
    requires RetriesBounded(l)
    ensures RetriesBounded(SetRetryInterval(l, intervalMs))
    ensures RetriesBounded(SetServerUrl(l, url))
    ensures maxRetries >= 1 && maxRetries > l.retries ==> RetriesBounded(SetMaxRetries(l, maxRetries))
  {
  }

  /**
   * Lowering the limit to at most one past the attempts already made while
   * the machine is still trying makes the next expired timer give up.
   */
  lemma LoweredLimitFailsAtNextExpiry(l: Link, maxRetries: nat, now: nat)
    requires l.status == Connecting || l.status == Reconnecting
    requires maxRetries <= l.retries + 1
    requires l.lastAttemptTime + l.config.retryInterval <= now
    ensures WifiRetryLoop(SetMaxRetries(l, maxRetries), false, now).link.status == ConnectionFailed
  {
  }

  /** Right after `wifiSetup` the status reads "DISCONNECTED". */
  lemma SetupReadsDisconnected(l: Link, ssid: string, password: string, serverUrl: string)
    ensures StatusString(WifiSetup(l, ssid, password, serverUrl).link.status) == "DISCONNECTED"
  {
  }

  lemma SetupBounded(l: Link, ssid: string, password: string, serverUrl: string)
    ensures RetriesBounded(WifiSetup(l, ssid, password, serverUrl).link)
  {
  }

  lemma RetryLoopKeepsBounded(l: Link, radioConnected: bool, now: nat)
    requires l.lastAttemptTime <= now && RetriesBounded(l)
    ensures RetriesBounded(WifiRetryLoop(l, radioConnected, now).link)
  {
  }

  /** The link after `wifiRetryLoop` has run once per timed radio reading. */
  function Run(l: Link, samples: seq<Timed<bool>>): (r: Link)
    requires Monotone(l.lastAttemptTime, samples)
    ensures r.config == l.config
    decreases |samples|
  {
    if |samples| == 0 then l
    else
      var next := WifiRetryLoop(l, samples[0].value, samples[0].now).link;
      MonotoneFromEarlier(next.lastAttemptTime, samples[0].now, samples[1..]);
      Run(next, samples[1..])
  }

  lemma {:induction false} RunKeepsBounded(l: Link, samples: seq<Timed<bool>>)
    requires Monotone(l.lastAttemptTime, samples) && RetriesBounded(l)
    ensures RetriesBounded(Run(l, samples))
    decreases |samples|
  {
    if |samples| > 0 {
      var next := WifiRetryLoop(l, samples[0].value, samples[0].now).link;
      RetryLoopKeepsBounded(l, samples[0].value, samples[0].now);
      MonotoneFromEarlier(next.lastAttemptTime, samples[0].now, samples[1..]);
      RunKeepsBounded(next, samples[1..]);
    }
  }

  /** The radio stays down through every sample. */
  predicate RadioDown(samples: seq<Timed<bool>>)
  {
    forall i :: 0 <= i < |samples| ==> !samples[i].value
  }

  /** CONNECTION_FAILED (and CONNECTED) are never left while the radio stays down. */
  lemma {:induction false} DownRunKeepsStatus(l: Link, samples: seq<Timed<bool>>)
    requires Monotone(l.lastAttemptTime, samples) && RadioDown(samples)
    requires l.status == ConnectionFailed || l.status == Connected
    ensures Run(l, samples) == l
    decreases |samples|
  {
    if |samples| > 0 {
      var next := WifiRetryLoop(l, samples[0].value, samples[0].now).link;
      assert next == l;
      MonotoneFromEarlier(next.lastAttemptTime, samples[0].now, samples[1..]);
      DownRunKeepsStatus(next, samples[1..]);
    }
  }

  /** How many more down-radio ticks with an expired timer the machine survives before failing. */
  function AttemptsLeft(l: Link): nat
    requires RetriesBounded(l)
  {
    match l.status
    case Disconnected => l.config.maxRetries - l.retries + 1
    case Connecting => l.config.maxRetries - l.retries
    case Reconnecting => l.config.maxRetries - l.retries
    case ConnectionFailed => 0
    case Connected => 0
  }

  /** Each call has its timer expired: it comes at least `retryInterval` after the previous attempt. */
  predicate Patient(start: nat, interval: nat, samples: seq<Timed<bool>>)
    decreases |samples|
  {
    |samples| == 0 || (start + interval <= samples[0].now && Patient(samples[0].now, interval, samples[1..]))
  }

  lemma {:induction false} PatientIsMonotone(start: nat, interval: nat, samples: seq<Timed<bool>>)
    requires Patient(start, interval, samples)
    ensures Monotone(start, samples)
    decreases |samples|
  {
    if |samples| > 0 {
      PatientIsMonotone(samples[0].now, interval, samples[1..]);
    }
  }

  /**
   * With the radio down and every call arriving after the retry interval,
   * each tick uses up exactly one attempt until the machine has failed.
   */
  lemma DownTickUsesAttempt(l: Link, now: nat)
    requires RetriesBounded(l) && l.status != Connected && l.status != ConnectionFailed
    requires l.lastAttemptTime + l.config.retryInterval <= now
    ensures var r := WifiRetryLoop(l, false, now).link;
            && RetriesBounded(r)
            && AttemptsLeft(r) + 1 == AttemptsLeft(l)
            && (r.status == ConnectionFailed || r.lastAttemptTime == now)
            && r.status != Connected
  {
  }

  /**
   * A radio that never comes up, polled no faster than the retry interval,
   * drives the machine to CONNECTION_FAILED within `AttemptsLeft` ticks:
   * from `wifiSetup`, after `maxRetries + 1` ticks.
   */
  lemma {:induction false} DownRunFails(l: Link, samples: seq<Timed<bool>>)
    requires RetriesBounded(l) && l.status != Connected
    requires RadioDown(samples) && Patient(l.lastAttemptTime, l.config.retryInterval, samples)
    requires |samples| >= AttemptsLeft(l)
    ensures Monotone(l.lastAttemptTime, samples)
    ensures Run(l, samples).status == ConnectionFailed
    decreases |samples|
  {
    PatientIsMonotone(l.lastAttemptTime, l.config.retryInterval, samples);
    if l.status == ConnectionFailed {
      DownRunKeepsStatus(l, samples);
    } else {
      var next := WifiRetryLoop(l, false, samples[0].now).link;
      assert !samples[0].value;
      DownTickUsesAttempt(l, samples[0].now);
      MonotoneFromEarlier(next.lastAttemptTime, samples[0].now, samples[1..]);
      assert RadioDown(samples[1..]) by {
        forall i | 0 <= i < |samples[1..]| ensures !samples[1..][i].value {
          assert samples[1..][i] == samples[i + 1];
        }
      }
      if next.status == ConnectionFailed {
        PatientIsMonotone(samples[0].now, l.config.retryInterval, samples[1..]);
        DownRunKeepsStatus(next, samples[1..]);
      } else {
        DownRunFails(next, samples[1..]);
      }
    }
  }

  /** From a fresh `wifiSetup`, a radio that never comes up is given up on after six patient ticks. */
  lemma SetupThenDownFails(l: Link, ssid: string, password: string, serverUrl: string, samples: seq<Timed<bool>>)
    requires RadioDown(samples) && |samples| >= DefaultMaxRetries + 1
    requires Patient(l.lastAttemptTime, DefaultRetryInterval, samples)
    ensures Monotone(l.lastAttemptTime, samples)
    ensures Run(WifiSetup(l, ssid, password, serverUrl).link, samples).status == ConnectionFailed
  {
    DownRunFails(WifiSetup(l, ssid, password, serverUrl).link, samples);
  }
}
