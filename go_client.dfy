/**
 * The Go client: argument checks on construction, and a poll that logs in and
 * then reads every configured sample with a request of its own, stopping at
 * the first sample that fails.
 *
 * The goroutines and channels behind sendAndAwait are reduced to what one
 * wait observes: commands go out in order, and each wait takes the next
 * delivery, either a response or the interrupt signal. The navigation tree's
 * XML decoding is the parameter `parse`.
 */
module GoClient {
  import opened Wrappers
  import opened Errors
  import opened Model
  import NavigationTree
  import PageItems

  /** Why NewClient refused its arguments. */
  datatype SetupError =
      /** "Please set the ip address of your websocket device ..." */
    | HostMissing
      /** "Please set the websocket port of your websocket device ... to its default 8214" */
    | PortNotPositive

  /** What a constructed client keeps. */
  datatype Settings = Settings(host: string, port: int, loginCode: string)

  /** NewClient: the host must be set, then the port must be positive. */
  function NewClient(host: string, port: int, loginCode: string): (r: Result<Settings, SetupError>)
    ensures r.Success? <==> host != "" && port > 0
    ensures r.Success? ==> r.value == Settings(host, port, loginCode)
    ensures host == "" ==> r == Failure(HostMissing)
    ensures host != "" && port <= 0 ==> r == Failure(PortNotPositive)
  {
    if host == "" then Failure(HostMissing)
    else if port <= 0 then Failure(PortNotPositive)
    else Success(Settings(host, port, loginCode))
  }

  /** The host check comes first: an empty host is reported whatever the port,
      and any positive port with a host is accepted, the default 8214 included. */
  lemma NewClientChecks(port: int, loginCode: string)
    ensures NewClient("", port, loginCode) == Failure(HostMissing)
    ensures NewClient("", 0, loginCode) == Failure(HostMissing)
    ensures NewClient("192.168.1.10", 0, loginCode) == Failure(PortNotPositive)
    ensures NewClient("192.168.1.10", -8214, loginCode) == Failure(PortNotPositive)
    ensures NewClient("192.168.1.10", 8214, loginCode) == Success(Settings("192.168.1.10", 8214, loginCode))
  {
  }

  /** What one wait in sendAndAwait observes: a response, or the interrupt. */
  datatype Delivery = Response(payload: string) | Interrupted

  /** The outcome of one wait: the payload (empty on an interrupt) and the
      position of the next delivery. */
  datatype Awaited = Awaited(payload: string, cursor: nat)

  /** One wait: the next delivery's payload, or the empty response on an
      interrupt; when nothing is left to deliver, the wait ends as on an interrupt. */
  function Await(deliveries: seq<Delivery>, cursor: nat): (a: Awaited)
    requires cursor <= |deliveries|
    ensures cursor <= a.cursor <= |deliveries|
  {
    if cursor == |deliveries| then Awaited("", cursor)
    else
      match deliveries[cursor]
      case Response(p) => Awaited(p, cursor + 1)
      case Interrupted => Awaited("", cursor + 1)
  }

  /** The client's state during a poll: the samples read so far, the error that
      ended the poll if any, the commands written and the next delivery. */
  datatype GoState = GoState(samples: seq<Sample>, err: Option<ClientError>, commands: seq<string>, cursor: nat)

  /** GetSample on one configuration: resolve its page, send "GET;<id>", await
      the reply and read the item with the Go pattern. A failure leaves the
      sample out and records the error. */
  function SampleStep(deliveries: seq<Delivery>, st: GoState, resolve: string -> Result<string, ClientError>,
                      read: (string, string) -> Result<PageItems.Extracted, ClientError>,
                      sc: ConfigSample): (t: GoState)
    requires st.err.None? && st.cursor <= |deliveries|
    ensures st.cursor <= t.cursor <= |deliveries|
    ensures t.err.None? <==> |t.samples| == |st.samples| + 1
    ensures t.err.Some? ==> t.samples == st.samples
    ensures resolve(sc.navigation).Failure? ==>
      t.commands == st.commands && t.cursor == st.cursor && t.err == Some(resolve(sc.navigation).error)
    ensures resolve(sc.navigation).Success? ==> t.commands == st.commands + ["GET;" + resolve(sc.navigation).value]
  {
    match resolve(sc.navigation)
    case Failure(e) => st.(err := Some(e))
    case Success(id) =>
      var a := Await(deliveries, st.cursor);
      var after := st.(commands := st.commands + ["GET;" + id], cursor := a.cursor);
      match read(sc.item, a.payload)
      case Failure(e) => after.(err := Some(e))
      case Success(x) => after.(samples := st.samples + [SampleFrom(sc, x.value)])
  }

  /** A step that succeeds resolved the page, read the item from the awaited
      reply, and added one sample built for its configuration from the number
      read: the descriptive fields copied, the value the number times the
      multiplier. */
  lemma SampleStepAdds(deliveries: seq<Delivery>, st: GoState, resolve: string -> Result<string, ClientError>,
                       read: (string, string) -> Result<PageItems.Extracted, ClientError>,
                       sc: ConfigSample)
    requires st.err.None? && st.cursor <= |deliveries|
    ensures var t := SampleStep(deliveries, st, resolve, read, sc);
      var r := read(sc.item, Await(deliveries, st.cursor).payload);
      t.err.None? ==>
        && resolve(sc.navigation).Success?
        && r.Success?
        && t.samples == st.samples + [SampleFrom(sc, r.value.value)]
        && Describes(t.samples[|st.samples|], sc)
        && t.samples[|st.samples|].value == r.value.value * sc.valueMultiplier
  {
    var t := SampleStep(deliveries, st, resolve, read, sc);
    if t.err.None? {
      var x := read(sc.item, Await(deliveries, st.cursor).payload).value;
      assert t.samples == st.samples + [SampleFrom(sc, x.value)];
    }
  }

  /** A step depends on the samples already read only by appending to them. */
  lemma SampleStepFrom(deliveries: seq<Delivery>, st: GoState, resolve: string -> Result<string, ClientError>,
                       read: (string, string) -> Result<PageItems.Extracted, ClientError>, sc: ConfigSample)
    requires st.err.None? && st.cursor <= |deliveries|
    ensures var t0 := SampleStep(deliveries, GoState([], None, st.commands, st.cursor), resolve, read, sc);
      SampleStep(deliveries, st, resolve, read, sc) == t0.(samples := st.samples + t0.samples)
  {
  }

  /** The per-configuration loop of GetMeasurement, from state `from`; the
      first error ends it, so it ends without an error exactly when every
      configuration added its sample. */
  function Run(deliveries: seq<Delivery>, from: GoState, resolve: string -> Result<string, ClientError>,
               read: (string, string) -> Result<PageItems.Extracted, ClientError>,
               configs: seq<ConfigSample>): (t: GoState)
    requires from.err.None? && from.cursor <= |deliveries|
    ensures from.cursor <= t.cursor <= |deliveries|
    ensures |t.samples| <= |from.samples| + |configs|
    ensures t.err.None? <==> |t.samples| == |from.samples| + |configs|
  {
    if configs == [] then from
    else
      var s := Run(deliveries, from, resolve, read, configs[..|configs| - 1]);
      if s.err.Some? then s
      else SampleStep(deliveries, s, resolve, read, configs[|configs| - 1])
  }

  lemma RunStep(deliveries: seq<Delivery>, from: GoState, resolve: string -> Result<string, ClientError>,
                read: (string, string) -> Result<PageItems.Extracted, ClientError>,
                configs: seq<ConfigSample>, i: nat)
    requires from.err.None? && from.cursor <= |deliveries|
    requires i < |configs| && Run(deliveries, from, resolve, read, configs[..i]).err.None?
    ensures Run(deliveries, from, resolve, read, configs[..i + 1])
         == SampleStep(deliveries, Run(deliveries, from, resolve, read, configs[..i]), resolve, read, configs[i])
  {
    assert configs[..i + 1][..i] == configs[..i];
  }

  lemma {:induction false} RunStops(deliveries: seq<Delivery>, from: GoState, resolve: string -> Result<string, ClientError>,
                                    read: (string, string) -> Result<PageItems.Extracted, ClientError>,
                                    configs: seq<ConfigSample>, n: nat)
    requires from.err.None? && from.cursor <= |deliveries|
    requires n <= |configs| && Run(deliveries, from, resolve, read, configs[..n]).err.Some?
    ensures Run(deliveries, from, resolve, read, configs) == Run(deliveries, from, resolve, read, configs[..n])
    decreases |configs| - n
  {
    if n < |configs| {
      var init := configs[..|configs| - 1];
      assert init[..n] == configs[..n];
      RunStops(deliveries, from, resolve, read, init, n);
    } else {
      assert configs[..n] == configs;
    }
  }

  /** The loop's samples are a prefix of the configurations, in order: sample i
      describes configuration i. */
  lemma {:induction false} RunSamples(deliveries: seq<Delivery>, from: GoState, resolve: string -> Result<string, ClientError>,
                                      read: (string, string) -> Result<PageItems.Extracted, ClientError>,
                                      configs: seq<ConfigSample>)
    requires from.err.None? && from.cursor <= |deliveries| && from.samples == []
    ensures var t := Run(deliveries, from, resolve, read, configs);
      DescribesAll(t.samples, configs[..|t.samples|])
    decreases |configs|
  {
    if configs != [] {
      var init := configs[..|configs| - 1];
      var sc := configs[|configs| - 1];
      RunSamples(deliveries, from, resolve, read, init);
      var s := Run(deliveries, from, resolve, read, init);
      var t := Run(deliveries, from, resolve, read, configs);
      assert init[..|s.samples|] == configs[..|s.samples|];
      if s.err.None? {
        assert t == SampleStep(deliveries, s, resolve, read, sc);
        SampleStepAdds(deliveries, s, resolve, read, sc);
        if t.err.None? {
          assert configs[..|t.samples|] == init + [sc];
          DescribesAllAppend(s.samples, init, [t.samples[|s.samples|]], [sc]);
        }
      }
    }
  }

  /** From position `base` on, `commands` holds one "GET;<id>" per
      configuration of `configs`, in order, each with the id its menu path
      resolves to. */
  predicate Issued(commands: seq<string>, base: nat, configs: seq<ConfigSample>,
                   resolve: string -> Result<string, ClientError>) {
    && base + |configs| <= |commands|
    && forall k :: 0 <= k < |configs| ==>
         resolve(configs[k].navigation).Success? && commands[base + k] == "GET;" + resolve(configs[k].navigation).value
  }

  lemma IssuedSnoc(commands: seq<string>, base: nat, configs: seq<ConfigSample>,
                   resolve: string -> Result<string, ClientError>, sc: ConfigSample)
    requires Issued(commands, base, configs, resolve) && |commands| == base + |configs|
    requires resolve(sc.navigation).Success?
    ensures Issued(commands + ["GET;" + resolve(sc.navigation).value], base, configs + [sc], resolve)
  {
  }

  lemma IssuedExtend(commands: seq<string>, base: nat, configs: seq<ConfigSample>,
                     resolve: string -> Result<string, ClientError>, more: seq<string>)
    requires Issued(commands, base, configs, resolve)
    ensures Issued(commands + more, base, configs, resolve)
  {
  }

  /** Each configuration that produced a sample issued exactly one request,
      "GET;" followed by the id its menu path resolves to, in order, after
      the commands already written; at most one more request (the failing
      one) follows, and none when the loop ends without an error. */
  lemma {:induction false} RunCommands(deliveries: seq<Delivery>, from: GoState, resolve: string -> Result<string, ClientError>,
                                       read: (string, string) -> Result<PageItems.Extracted, ClientError>,
                                       configs: seq<ConfigSample>)
    requires from.err.None? && from.cursor <= |deliveries| && from.samples == []
    ensures var t := Run(deliveries, from, resolve, read, configs);
      && |from.commands| + |t.samples| <= |t.commands| <= |from.commands| + |t.samples| + 1
      && t.commands[..|from.commands|] == from.commands
      && Issued(t.commands, |from.commands|, configs[..|t.samples|], resolve)
      && (t.err.None? ==> |t.commands| == |from.commands| + |t.samples|)
    decreases |configs|
  {
    if configs != [] {
      var init := configs[..|configs| - 1];
      var sc := configs[|configs| - 1];
      RunCommands(deliveries, from, resolve, read, init);
      var s := Run(deliveries, from, resolve, read, init);
      var t := Run(deliveries, from, resolve, read, configs);
      assert init[..|s.samples|] == configs[..|s.samples|];
      if s.err.None? {
        assert t == SampleStep(deliveries, s, resolve, read, sc);
        if resolve(sc.navigation).Failure? {
          assert t.commands == s.commands;
        } else {
          var get := "GET;" + resolve(sc.navigation).value;
          assert t.commands == s.commands + [get];
          assert t.commands[..|from.commands|] == s.commands[..|from.commands|];
          if t.err.None? {
            assert configs[..|t.samples|] == init + [sc];
            IssuedSnoc(s.commands, |from.commands|, init, resolve, sc);
          } else {
            IssuedExtend(s.commands, |from.commands|, init, resolve, [get]);
          }
        }
      }
    }
  }

  /** A whole poll: "LOGIN;<code>", the reply decoded into the navigation
      tree, then the per-configuration loop. A failed login ends the poll
      with no samples. */
  function Poll(deliveries: seq<Delivery>, cursor: nat, commands: seq<string>, loginCode: string,
                parse: string -> Result<NavigationTree.Navigation, ClientError>,
                configs: seq<ConfigSample>): (t: GoState)
    requires cursor <= |deliveries|
    ensures cursor <= t.cursor <= |deliveries|
  {
    var a := Await(deliveries, cursor);
    var loggedIn := GoState([], None, commands + ["LOGIN;" + loginCode], a.cursor);
    match parse(a.payload)
    case Failure(e) => loggedIn.(err := Some(e))
    case Success(navigation) => Run(deliveries, loggedIn, NavigationTree.Resolver(navigation), PageItems.GoItemFromResponse, configs)
  }

  /** Every poll first writes the login; its samples are a prefix of the
      configurations, complete when there is no error, and any missing sample
      comes with an error. After the login, each sample was requested with
      the "GET;<id>" of its own page. */
  lemma PollShape(deliveries: seq<Delivery>, cursor: nat, commands: seq<string>, loginCode: string,
                  parse: string -> Result<NavigationTree.Navigation, ClientError>,
                  configs: seq<ConfigSample>)
    requires cursor <= |deliveries|
    ensures var t := Poll(deliveries, cursor, commands, loginCode, parse, configs);
      && |t.commands| > |commands|
      && t.commands[..|commands| + 1] == commands + ["LOGIN;" + loginCode]
      && |t.samples| <= |configs|
      && DescribesAll(t.samples, configs[..|t.samples|])
      && (t.err.None? ==> |t.samples| == |configs|)
      && (|t.samples| < |configs| ==> t.err.Some?)
  {
    var a := Await(deliveries, cursor);
    var loggedIn := GoState([], None, commands + ["LOGIN;" + loginCode], a.cursor);
    var t := Poll(deliveries, cursor, commands, loginCode, parse, configs);
    if parse(a.payload).Success? {
      var resolve := NavigationTree.Resolver(parse(a.payload).value);
      var read := PageItems.GoItemFromResponse;
      assert t == Run(deliveries, loggedIn, resolve, read, configs);
      RunSamples(deliveries, loggedIn, resolve, read, configs);
      RunCommands(deliveries, loggedIn, resolve, read, configs);
      assert t.commands[..|commands| + 1] == t.commands[..|loggedIn.commands|];
    } else {
      assert configs[..0] == [];
      assert t.commands[..|commands| + 1] == t.commands;
    }
  }

  /** The Go client: its settings plus the command and delivery channels,
      seen as the commands written so far and the deliveries still to come. */
  class Client {
    const host: string
    const port: int
    const loginCode: string
    var commands: seq<string>
    var deliveries: seq<Delivery>
    var cursor: nat

    predicate Valid()
      reads this
    {
      cursor <= |deliveries|
    }

    constructor (settings: Settings, deliveries: seq<Delivery>)
      ensures Valid()
      ensures host == settings.host && port == settings.port && loginCode == settings.loginCode
      ensures commands == [] && this.deliveries == deliveries && cursor == 0
    {
      host := settings.host;
      port := settings.port;
      loginCode := settings.loginCode;
      commands := [];
      this.deliveries := deliveries;
      cursor := 0;
    }

    /** sendAndAwait: write the command, then take the next delivery. Its
        error result is never set, so only the response is returned. */
    method SendAndAwait(command: string) returns (response: string)
      requires Valid()
      modifies this
      ensures Valid() && deliveries == old(deliveries)
      ensures commands == old(commands) + [command]
      ensures Await(deliveries, old(cursor)) == Awaited(response, cursor)
    {
      commands := commands + [command];
      if cursor == |deliveries| {
        return "";
      }
      match deliveries[cursor] {
        case Response(p) =>
          response := p;
        case Interrupted =>
          response := "";
      }
      cursor := cursor + 1;
    }

    /** login: "LOGIN;<code>", then the reply decoded into the tree. */
    method Login(parse: string -> Result<NavigationTree.Navigation, ClientError>)
      returns (r: Result<NavigationTree.Navigation, ClientError>)
      requires Valid()
      modifies this
      ensures Valid() && deliveries == old(deliveries)
      ensures var a := Await(deliveries, old(cursor));
        && commands == old(commands) + ["LOGIN;" + loginCode]
        && cursor == a.cursor
        && r == parse(a.payload)
    {
      var response := SendAndAwait("LOGIN;" + loginCode);
      r := parse(response);
    }

    /** getSampleValue: "GET;<id>", then the item read from the reply. */
    method GetSampleValue(navigationID: string, item: string) returns (r: Result<PageItems.Extracted, ClientError>)
      requires Valid()
      modifies this
      ensures Valid() && deliveries == old(deliveries)
      ensures var a := Await(deliveries, old(cursor));
        && commands == old(commands) + ["GET;" + navigationID]
        && cursor == a.cursor
        && r == PageItems.GoItemFromResponse(item, a.payload)
    {
      var response := SendAndAwait("GET;" + navigationID);
      r := PageItems.GoItemFromResponse(item, response);
    }

    /** GetSample: the descriptive fields are copied first; a menu path that
        does not resolve is returned as the error before any request is sent;
        otherwise the value read is scaled by the multiplier. */
    method GetSample(navigation: NavigationTree.Navigation, sc: ConfigSample)
      returns (sample: Sample, err: Option<ClientError>)
      requires Valid()
      modifies this
      ensures Valid() && deliveries == old(deliveries)
      ensures Describes(sample, sc)
      ensures err.Some? ==> sample.value == 0.0
      ensures var st := GoState([], None, old(commands), old(cursor));
        var t := SampleStep(deliveries, st, NavigationTree.Resolver(navigation), PageItems.GoItemFromResponse, sc);
        && commands == t.commands
        && cursor == t.cursor
        && err == t.err
        && (err.None? ==> t.samples == [sample])
    {
      ghost var st := GoState([], None, commands, cursor);
      ghost var t := SampleStep(deliveries, st, NavigationTree.Resolver(navigation), PageItems.GoItemFromResponse, sc);
      sample := Sample(sc.entityType, sc.entityName, sc.sampleType, sc.sampleName, sc.metricType, 0.0);
      var navigationID := NavigationTree.GetNavigationItemID(navigation, sc.navigation);
      assert NavigationTree.Resolver(navigation)(sc.navigation) == navigationID;
      if navigationID.Failure? {
        assert t == st.(err := Some(navigationID.error));
        return sample, Some(navigationID.error);
      }
      var value := GetSampleValue(navigationID.value, sc.item);
      ghost var after := st.(commands := st.commands + ["GET;" + navigationID.value], cursor := cursor);
      if value.Failure? {
        assert t == after.(err := Some(value.error));
        return sample, Some(value.error);
      }
      sample := SampleFrom(sc, value.value.value);
      assert t == after.(samples := [] + [sample]);
      return sample, None;
    }

    /** GetMeasurement: the measurement's header is filled first; after the
        login each configuration is read in turn and appended, and the first
        error is returned together with the samples read before it. */
    method GetMeasurement(config: Config, parse: string -> Result<NavigationTree.Navigation, ClientError>,
                          id: string, now: int)
      returns (measurement: Measurement, err: Option<ClientError>)
      requires Valid()
      modifies this
      ensures Valid() && deliveries == old(deliveries)
      ensures var t := Poll(deliveries, old(cursor), old(commands), loginCode, parse, config.sampleConfigs);
        && commands == t.commands
        && cursor == t.cursor
        && err == t.err
        && measurement == Measurement(id, MeasurementSource, config.location, t.samples, now)
    {
      ghost var a := Await(deliveries, cursor);
      ghost var loggedIn := GoState([], None, commands + ["LOGIN;" + loginCode], a.cursor);
      ghost var read := PageItems.GoItemFromResponse;
      measurement := Measurement(id, MeasurementSource, config.location, [], now);
      var navigation := Login(parse);
      if navigation.Failure? {
        return measurement, Some(navigation.error);
      }
      ghost var resolve := NavigationTree.Resolver(navigation.value);
      var configs := config.sampleConfigs;
      assert Poll(deliveries, old(cursor), old(commands), loginCode, parse, configs)
          == Run(deliveries, loggedIn, resolve, read, configs);
      for i := 0 to |configs|
        invariant Valid() && deliveries == old(deliveries)
        invariant configs == config.sampleConfigs
        invariant Run(deliveries, loggedIn, resolve, read, configs[..i]) == GoState(measurement.samples, None, commands, cursor)
        invariant measurement == Measurement(id, MeasurementSource, config.location, measurement.samples, now)
      {
        ghost var s := GoState(measurement.samples, None, commands, cursor);
        RunStep(deliveries, loggedIn, resolve, read, configs, i);
        SampleStepFrom(deliveries, s, resolve, read, configs[i]);
        var sample, sampleErr := GetSample(navigation.value, configs[i]);
        if sampleErr.Some? {
          RunStops(deliveries, loggedIn, resolve, read, configs, i + 1);
          return measurement, sampleErr;
        }
        measurement := measurement.(samples := measurement.samples + [sample]);
      }
      assert configs[..|configs|] == configs;
      err := None;
    }
  }
}
