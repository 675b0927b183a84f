/** Configuration the bridge derives from its command line: the candidate
    hosts, the endpoint URLs of one host, the bus service names and the
    device instances, with and without dryrun mode. */
module Config {
  import opened Snapshot

  const DefaultHost: string := "TeslaWallConnector.local"
  const DefaultService: string := "com.victronenergy.evcharger.twc3"
  const TempService: string := "com.victronenergy.temperature.twc3"
  const DefaultInstance: int := 42
  const DefaultName: string := "TWC3"
  const DryrunSuffix: string := "_dryrun"

  /** `ip or 'TeslaWallConnector.local'`: no host, or the empty one, means
      the default host. */
  function Host(ip: Option<string>): (h: string)
    ensures h != ""
    ensures ip.Some? && ip.value != "" ==> h == ip.value
    ensures ip.None? || ip.value == "" ==> h == DefaultHost
  {
    if ip.Some? && ip.value != "" then ip.value else DefaultHost
  }

  /** The three endpoints of a Wall Connector. */
  datatype Endpoint = VitalsEndpoint | LifetimeEndpoint | VersionEndpoint
  {
    function Suffix(): string
    {
      match this
      case VitalsEndpoint => "/vitals"
      case LifetimeEndpoint => "/lifetime"
      case VersionEndpoint => "/version"
    }
  }

  const Scheme: string := "http://"
  const ApiRoot: string := "/api/1"

  /** The URL of endpoint `e` on the host the constructor derives from `ip`. */
  function Url(ip: Option<string>, e: Endpoint): string
  {
    Scheme + Host(ip) + ApiRoot + e.Suffix()
  }

  /** The host named by a URL of endpoint `e`, when the URL has that shape;
      the reference against which Url is checked. */
  function HostOf(url: string, e: Endpoint): Option<string>
  {
    var tail := ApiRoot + e.Suffix();
    if |Scheme| + |tail| <= |url| && url[..|Scheme|] == Scheme && url[|url| - |tail|..] == tail
    then Some(url[|Scheme|..|url| - |tail|])
    else None
  }

  /** Every endpoint URL names the host it was built from. */
  lemma UrlNamesHost(ip: Option<string>, e: Endpoint)
    ensures HostOf(Url(ip, e), e) == Some(Host(ip))
  {
    var h, tail := Host(ip), ApiRoot + e.Suffix();
    var url := Url(ip, e);
    assert url == Scheme + h + tail;
    assert url[..|Scheme|] == Scheme;
    assert url[|url| - |tail|..] == tail;
    assert url[|Scheme|..|url| - |tail|] == h;
  }

  /** Two configurations reach the same charger exactly when they derive
      the same host. */
  lemma UrlsAgreeIff(a: Option<string>, b: Option<string>, e: Endpoint)
    ensures Url(a, e) == Url(b, e) <==> Host(a) == Host(b)
  {
    UrlNamesHost(a, e);
    UrlNamesHost(b, e);
  }

  /** `args.service + ('_dryrun' if args.dryrun else '')` and the
      temperature service's fixed name with the same suffix. */
  function ServiceName(service: string, dryrun: bool): string
  {
    service + (if dryrun then DryrunSuffix else "")
  }

  function TempServiceName(dryrun: bool): string
  {
    ServiceName(TempService, dryrun)
  }

  /** Dryrun mode appends `_dryrun` to both names, so a dryrun bridge never
      takes the name of a production one; the default charger name and the
      temperature name differ in either mode. */
  lemma ServiceNames(service: string)
    ensures var n := ServiceName(service, true);
      n[..|service|] == service && n[|service|..] == DryrunSuffix
    ensures ServiceName(service, false) == service
    ensures ServiceName(service, true) != ServiceName(service, false)
    ensures forall dryrun: bool :: ServiceName(DefaultService, dryrun) != TempServiceName(dryrun)
  {
    var n := ServiceName(service, true);
    assert |n| != |service|;
    forall dryrun: bool
      ensures ServiceName(DefaultService, dryrun) != TempServiceName(dryrun)
    {
      assert ServiceName(DefaultService, dryrun)[18] == 'e';
      assert TempServiceName(dryrun)[18] == 't';
    }
  }

  /** `args.instance + (100 if args.dryrun else 0)` in main, on an integer
      instance. */
  function PrimaryInstance(instance: int, dryrun: bool): int
  {
    instance + (if dryrun then 100 else 0)
  }

  /** `instance + (100 if dryrun else 0)` in add_temp_service, applied to
      the primary's instance, which main has already offset. */
  function TempInstance(deviceInstance: int, dryrun: bool): int
  {
    deviceInstance + (if dryrun then 100 else 0)
  }

  /** In dryrun mode the primary instance is the requested one plus 100 and
      the temperature service's is plus 200, since the offset is applied
      twice; otherwise both are the requested one. */
  lemma InstanceOffsets(instance: int)
    ensures PrimaryInstance(instance, false) == instance
    ensures TempInstance(PrimaryInstance(instance, false), false) == instance
    ensures PrimaryInstance(instance, true) == instance + 100
    ensures TempInstance(PrimaryInstance(instance, true), true) == instance + 200
    ensures forall dryrun: bool :: TempInstance(PrimaryInstance(instance, dryrun), dryrun) - instance
                                   == 2 * (PrimaryInstance(instance, dryrun) - instance)
  {
  }

  /** The `--instance` option as main receives it: the integer default, or
      the text given on the command line (the option declares no type, so
      argparse leaves it a string). */
  datatype InstanceArg = DefaultArg | GivenArg(text: string)

  /** main's `args.instance + (100 if args.dryrun else 0)` as written: on a
      string it raises TypeError, whatever the text and the mode. */
  function InstanceAsWritten(arg: InstanceArg, dryrun: bool): Result<int>
  {
    match arg
    case DefaultArg => Ok(PrimaryInstance(DefaultInstance, dryrun))
    case GivenArg(_) => Err(TypeError("instance"))
  }

  /** Any instance given on the command line, even "42", makes the first
      construction raise TypeError, which main does not catch. */
  lemma GivenInstanceRaises(text: string, dryrun: bool)
    ensures InstanceAsWritten(GivenArg(text), dryrun) == Err(TypeError("instance"))
    ensures InstanceAsWritten(DefaultArg, dryrun) == Ok(PrimaryInstance(42, dryrun))
  {
  }

  predicate IsDigit(c: char)
  {
    '0' <= c <= '9'
  }

  /** The value of a non-empty run of decimal digits. */
  function DigitsValue(s: string): nat
    requires |s| > 0 && forall i | 0 <= i < |s| :: IsDigit(s[i])
    decreases |s|
  {
    var c := s[|s| - 1];
    assert IsDigit(c);
    var last: nat := c as int - '0' as int;
    if |s| == 1 then last else 10 * DigitsValue(s[..|s| - 1]) + last
  }

  function AllDigits(s: string): bool
  {
    forall i | 0 <= i < |s| :: IsDigit(s[i])
  }

  /** `int(text)` as `type=int` would apply it: an optional sign and one or
      more decimal digits; anything else is rejected. */
  function ParseInt(text: string): Option<int>
  {
    if |text| > 0 && (text[0] == '-' || text[0] == '+') then
      var digits := text[1..];
      if |digits| > 0 && AllDigits(digits)
      then var v: int := DigitsValue(digits); Some(if text[0] == '-' then -v else v)
      else None
    else if |text| > 0 && AllDigits(text) then Some(DigitsValue(text))
    else None
  }

  /** The decimal digits of `n`, most significant first. */
  function Digits(n: nat): (s: string)
    ensures |s| > 0 && AllDigits(s)
    decreases n
  {
    var c := ('0' as int + n % 10) as char;
    if n < 10 then [c] else Digits(n / 10) + [c]
  }

  /** `str(n)`. */
  function Decimal(n: int): string
  {
    if n < 0 then "-" + Digits(-n) else Digits(n)
  }

  lemma {:induction false} DigitsRoundTrip(n: nat)
    ensures DigitsValue(Digits(n)) == n
    decreases n
  {
    if n >= 10 {
      var s := Digits(n);
      assert s[..|s| - 1] == Digits(n / 10);
      DigitsRoundTrip(n / 10);
    }
  }

  /** Parsing the decimal text of an integer gives the integer back. */
  lemma ParseDecimal(n: int)
    ensures ParseInt(Decimal(n)) == Some(n)
  {
    if n < 0 {
      DigitsRoundTrip(-n);
      assert Decimal(n)[1..] == Digits(-n);
    } else {
      DigitsRoundTrip(n);
    }
  }

  /** The intended behaviour, `type=int` on the option: the text is
      converted first, so the offset is integer addition; unparsable text is
      rejected with a usage error (None). */
  function InstanceCorrected(arg: InstanceArg, dryrun: bool): Option<int>
  {
    match arg
    case DefaultArg => Some(PrimaryInstance(DefaultInstance, dryrun))
    case GivenArg(text) =>
      match ParseInt(text)
      case None => None
      case Some(n) => Some(PrimaryInstance(n, dryrun))
  }

  /** With the conversion, `--instance N` gives instance N, offset by 100
      in dryrun mode. */
  lemma CorrectedInstanceOffsets(n: int, dryrun: bool)
    ensures InstanceCorrected(GivenArg(Decimal(n)), dryrun) == Some(n + (if dryrun then 100 else 0))
    ensures InstanceCorrected(DefaultArg, dryrun) == InstanceCorrected(GivenArg("42"), dryrun)
  {
    ParseDecimal(n);
    ParseDecimal(42);
    assert Decimal(42) == "42";
  }

  /** Python's `s.split(sep)`: the pieces between separators, empty ones
      included; the empty string gives one empty piece. */
  function Split(s: string, sep: char): (parts: seq<string>)
    ensures |parts| > 0
    decreases |s|
  {
    if s == [] then [""]
    else
      var rest := Split(s[1..], sep);
      if s[0] == sep then [""] + rest
      else [[s[0]] + rest[0]] + rest[1..]
  }

  /** `sep.join(parts)`. */
  function Join(parts: seq<string>, sep: char): string
    requires |parts| > 0
    decreases |parts|
  {
    if |parts| == 1 then parts[0] else parts[0] + [sep] + Join(parts[1..], sep)
  }

  /** Joining the pieces gives the string back. */
  lemma {:induction false} JoinSplit(s: string, sep: char)
    ensures Join(Split(s, sep), sep) == s
    decreases |s|
  {
    if s != [] {
      var rest := Split(s[1..], sep);
      JoinSplit(s[1..], sep);
      if s[0] == sep {
        assert ([""] + rest)[1..] == rest;
      } else {
        var parts := [[s[0]] + rest[0]] + rest[1..];
        if |rest| == 1 {
          assert parts[0] == s;
        } else {
          assert parts[1..] == rest[1..];
          assert Join(rest, sep) == rest[0] + [sep] + Join(rest[1..], sep);
        }
      }
    }
  }

  /** No piece contains the separator. */
  lemma {:induction false} SplitPiecesFree(s: string, sep: char)
    ensures forall i | 0 <= i < |Split(s, sep)| :: sep !in Split(s, sep)[i]
    decreases |s|
  {
    if s != [] {
      SplitPiecesFree(s[1..], sep);
      var rest := Split(s[1..], sep);
      if s[0] != sep {
        var parts := Split(s, sep);
        assert parts[0] == [s[0]] + rest[0];
        assert forall i | 1 <= i < |parts| :: parts[i] == rest[i];
      }
    }
  }

  /** Splitting a join of separator-free pieces gives the pieces back. */
  lemma {:induction false} SplitJoin(parts: seq<string>, sep: char)
    requires |parts| > 0 && forall i | 0 <= i < |parts| :: sep !in parts[i]
    ensures Split(Join(parts, sep), sep) == parts
    decreases |parts|, |parts[0]|
  {
    if parts[0] != [] {
      var p := parts[0];
      var s := Join(parts, sep);
      var shorter := [p[1..]] + parts[1..];
      assert p[0] != sep by { assert p[0] in p; }
      assert forall i | 0 <= i < |shorter| :: sep !in shorter[i] by {
        assert forall c | c in p[1..] :: c in p;
        assert forall i | 1 <= i < |shorter| :: shorter[i] == parts[i];
      }
      assert s[1..] == Join(shorter, sep) by {
        if |parts| > 1 {
          assert shorter[1..] == parts[1..];
        }
      }
      SplitJoin(shorter, sep);
      assert [p[0]] + p[1..] == p;
    } else if |parts| > 1 {
      var s := Join(parts, sep);
      assert s == [sep] + Join(parts[1..], sep);
      assert s[1..] == Join(parts[1..], sep);
      SplitJoin(parts[1..], sep);
    }
  }

  /** main's candidate hosts: the `--ip` value split at commas, each piece
      standing for its host after the constructor's default for an empty
      piece. */
  function CandidateHosts(ipArg: string): (hosts: seq<string>)
    ensures |hosts| == |Split(ipArg, ',')|
  {
    var parts := Split(ipArg, ',');
    seq(|parts|, i requires 0 <= i < |parts| => Host(Some(parts[i])))
  }

  /** The hosts appear in the order they were given, the empty ones as the
      default host; every `--ip` value gives at least one candidate. */
  lemma CandidateHostsInOrder(hosts: seq<string>)
    requires |hosts| > 0 && forall i | 0 <= i < |hosts| :: ',' !in hosts[i]
    ensures CandidateHosts(Join(hosts, ',')) ==
      seq(|hosts|, i requires 0 <= i < |hosts| => Host(Some(hosts[i])))
  {
    SplitJoin(hosts, ',');
  }

  /** The default `--ip` is the single default host. */
  lemma DefaultCandidates()
    ensures CandidateHosts(DefaultHost) == [DefaultHost]
  {
    assert ',' !in DefaultHost;
    SplitJoin([DefaultHost], ',');
  }
}
