/**
 * The Rust client's poll: log in, request each page of configured samples
 * once, read the configured items from each page reply, and sanitise the
 * counters against the previous measurement.
 *
 * The socket is a `Transport.Connection`; the navigation tree's XML
 * deserialisation is the parameter `parse`; the map of groups is visited in
 * the order given by the parameter `order`, which lists every key once (the
 * map's iteration order is not specified).
 */
module RustClient {
  import opened Wrappers
  import opened Errors
  import opened Model
  import NavigationTree
  import PageItems
  import opened Transport
  import Grouping
  import Sanitize

  /** Reading the configured items from one page reply. */
  function Reader(reply: string): ConfigSample -> Result<PageItems.Extracted, ClientError> {
    (sc: ConfigSample) => PageItems.ItemFromResponse(sc.item, reply)
  }

  /** The samples of one page's configurations, each read with `read`, in
      order. The first item that cannot be read aborts the page with its error. */
  function PageSamples(configs: seq<ConfigSample>, read: ConfigSample -> Result<PageItems.Extracted, ClientError>)
    : (r: Result<seq<Sample>, ClientError>)
    ensures r.Success? <==> forall i :: 0 <= i < |configs| ==> read(configs[i]).Success?
    ensures r.Success? ==> |r.value| == |configs|
    ensures r.Success? ==> forall i :: 0 <= i < |configs| ==>
      && Describes(r.value[i], configs[i])
      && r.value[i].value == read(configs[i]).value.value * configs[i].valueMultiplier
    ensures r.Failure? ==> exists k :: (0 <= k < |configs| && read(configs[k]) == Failure(r.error)
      && forall j :: 0 <= j < k ==> read(configs[j]).Success?)
  {
    if configs == [] then Success([])
    else
      var init := configs[..|configs| - 1];
      var sc := configs[|configs| - 1];
      var before := PageSamples(init, read);
      if before.Failure? then
        before
      else
        match read(sc)
        case Failure(e) => Failure(e)
        case Success(x) => Success(before.value + [SampleFrom(sc, x.value)])
  }

  lemma PageSamplesStep(configs: seq<ConfigSample>, read: ConfigSample -> Result<PageItems.Extracted, ClientError>, j: nat)
    requires j < |configs| && PageSamples(configs[..j], read).Success?
    ensures PageSamples(configs[..j + 1], read)
         == match read(configs[j])
            case Failure(e) => Failure(e)
            case Success(x) => Success(PageSamples(configs[..j], read).value + [SampleFrom(configs[j], x.value)])
  {
    assert configs[..j + 1][..j] == configs[..j];
  }

  /** Once a prefix of the configurations fails, the whole page fails the same way. */
  lemma {:induction false} PageSamplesStops(configs: seq<ConfigSample>, read: ConfigSample -> Result<PageItems.Extracted, ClientError>, n: nat)
    requires n <= |configs| && PageSamples(configs[..n], read).Failure?
    ensures PageSamples(configs, read) == PageSamples(configs[..n], read)
    decreases |configs| - n
  {
    if n < |configs| {
      var init := configs[..|configs| - 1];
      assert init[..n] == configs[..n];
      PageSamplesStops(init, read, n);
    } else {
      assert configs[..n] == configs;
    }
  }

  /** The client's state while it works through the pages: the samples so far
      (or the error that ended the poll), the read position on the socket and
      every frame written on it so far. */
  datatype Step = Step(result: Result<seq<Sample>, ClientError>, cursor: nat, sent: seq<Frame>)

  /** Fetching one page: resolve its menu path, send "GET;<id>", await the
      reply, and read the page's configurations from it. */
  function FetchPage(incoming: seq<Incoming>, s: Step, resolve: string -> Result<string, ClientError>,
                     nav: string, configs: seq<ConfigSample>): (t: Step)
    requires s.result.Success? && s.cursor <= |incoming|
    ensures s.cursor <= t.cursor <= |incoming|
  {
    match resolve(nav)
    case Failure(e) => s.(result := Failure(e))
    case Success(id) =>
      var d := Drain(incoming[s.cursor..]);
      var after := s.(cursor := s.cursor + d.consumed, sent := s.sent + [Text("GET;" + id)] + d.replies);
      match d.result
      case Failure(e) => after.(result := Failure(e))
      case Success(reply) =>
        match PageSamples(configs, Reader(reply))
        case Failure(e) => after.(result := Failure(e))
        case Success(samples) => after.(result := Success(s.result.value + samples))
  }

  /** Fetching the pages in `order`, starting from state `from`; the first
      failure ends the poll. */
  function Fetch(incoming: seq<Incoming>, from: Step, resolve: string -> Result<string, ClientError>,
                 groups: map<string, seq<ConfigSample>>, order: seq<string>): (t: Step)
    requires from.result.Success? && from.cursor <= |incoming|
    requires forall k :: 0 <= k < |order| ==> order[k] in groups
    ensures from.cursor <= t.cursor <= |incoming|
  {
    if order == [] then from
    else
      var s := Fetch(incoming, from, resolve, groups, order[..|order| - 1]);
      if s.result.Failure? then s
      else FetchPage(incoming, s, resolve, order[|order| - 1], groups[order[|order| - 1]])
  }

  /** What a successful page fetch consists of. */
  lemma FetchPageSuccess(incoming: seq<Incoming>, s: Step, resolve: string -> Result<string, ClientError>,
                         nav: string, configs: seq<ConfigSample>)
    requires s.result.Success? && s.cursor <= |incoming|
    ensures var t := FetchPage(incoming, s, resolve, nav, configs);
      t.result.Success? ==>
        && resolve(nav).Success?
        && var d := Drain(incoming[s.cursor..]);
           && d.result.Success?
           && PageSamples(configs, Reader(d.result.value)).Success?
           && t.result.value == s.result.value + PageSamples(configs, Reader(d.result.value)).value
           && t.sent == s.sent + [Text("GET;" + resolve(nav).value)] + d.replies
  {
  }

  /** A page fetch from a state with samples is the fetch from the same
      position with none, its samples appended to the earlier ones. */
  lemma FetchPageFrom(incoming: seq<Incoming>, s: Step, resolve: string -> Result<string, ClientError>,
                      nav: string, configs: seq<ConfigSample>)
    requires s.result.Success? && s.cursor <= |incoming|
    ensures var u := FetchPage(incoming, s.(result := Success([])), resolve, nav, configs);
      FetchPage(incoming, s, resolve, nav, configs)
        == u.(result := if u.result.Success? then Success(s.result.value + u.result.value) else u.result)
  {
    var u := FetchPage(incoming, s.(result := Success([])), resolve, nav, configs);
    var d := Drain(incoming[s.cursor..]);
    if resolve(nav).Success? && d.result.Success? {
      var page := PageSamples(configs, Reader(d.result.value));
      if page.Success? {
        assert u.result == Success([] + page.value);
        assert [] + page.value == page.value;
      }
    }
  }

  /** Fetching one more page after a successful prefix. */
  lemma FetchStep(incoming: seq<Incoming>, from: Step, resolve: string -> Result<string, ClientError>,
                  groups: map<string, seq<ConfigSample>>, order: seq<string>, i: nat)
    requires from.result.Success? && from.cursor <= |incoming|
    requires forall k :: 0 <= k < |order| ==> order[k] in groups
    requires i < |order| && Fetch(incoming, from, resolve, groups, order[..i]).result.Success?
    ensures Fetch(incoming, from, resolve, groups, order[..i + 1])
         == FetchPage(incoming, Fetch(incoming, from, resolve, groups, order[..i]), resolve, order[i], groups[order[i]])
  {
    assert order[..i + 1][..i] == order[..i];
  }

  /** Once a prefix of the pages fails, the whole fetch ends there. */
  lemma {:induction false} FetchStops(incoming: seq<Incoming>, from: Step, resolve: string -> Result<string, ClientError>,
                                      groups: map<string, seq<ConfigSample>>, order: seq<string>, n: nat)
    requires from.result.Success? && from.cursor <= |incoming|
    requires forall k :: 0 <= k < |order| ==> order[k] in groups
    requires n <= |order| && Fetch(incoming, from, resolve, groups, order[..n]).result.Failure?
    ensures Fetch(incoming, from, resolve, groups, order) == Fetch(incoming, from, resolve, groups, order[..n])
    decreases |order| - n
  {
    if n < |order| {
      var init := order[..|order| - 1];
      assert init[..n] == order[..n];
      FetchStops(incoming, from, resolve, groups, init, n);
    } else {
      assert order[..n] == order;
    }
  }

  /** A successful fetch yields one sample per configuration of the visited
      groups, in the order the groups were visited, each describing its
      configuration. */
  lemma {:induction false} FetchSamples(incoming: seq<Incoming>, from: Step, resolve: string -> Result<string, ClientError>,
                                        groups: map<string, seq<ConfigSample>>, order: seq<string>)
    requires from.result == Success([]) && from.cursor <= |incoming|
    requires forall k :: 0 <= k < |order| ==> order[k] in groups
    ensures var t := Fetch(incoming, from, resolve, groups, order);
      t.result.Success? ==> DescribesAll(t.result.value, Grouping.Gathered(groups, order))
    decreases |order|
  {
    if order != [] {
      var init := order[..|order| - 1];
      var nav := order[|order| - 1];
      FetchSamples(incoming, from, resolve, groups, init);
      var s := Fetch(incoming, from, resolve, groups, init);
      if s.result.Success? {
        var t := FetchPage(incoming, s, resolve, nav, groups[nav]);
        assert Fetch(incoming, from, resolve, groups, order) == t;
        FetchPageSuccess(incoming, s, resolve, nav, groups[nav]);
        if t.result.Success? {
          var page := PageSamples(groups[nav], Reader(Drain(incoming[s.cursor..]).result.value)).value;
          assert DescribesAll(page, groups[nav]);
          DescribesAllAppend(s.result.value, Grouping.Gathered(groups, init), page, groups[nav]);
        }
      }
    }
  }

  /** The k-th request is "GET;" followed by the id the k-th menu path resolves to. */
  predicate RequestsFor(requests: seq<string>, order: seq<string>, resolve: string -> Result<string, ClientError>) {
    && |requests| == |order|
    && forall k :: 0 <= k < |order| ==> resolve(order[k]).Success? && requests[k] == "GET;" + resolve(order[k]).value
  }

  lemma RequestsForSnoc(requests: seq<string>, order: seq<string>, resolve: string -> Result<string, ClientError>, nav: string)
    requires RequestsFor(requests, order, resolve) && resolve(nav).Success?
    ensures RequestsFor(requests + ["GET;" + resolve(nav).value], order + [nav], resolve)
  {
  }

  /** A successful page fetch writes one request, "GET;" followed by the id
      the page's menu path resolves to, and otherwise only answers pings and
      close frames. */
  lemma FetchPageRequests(incoming: seq<Incoming>, s: Step, resolve: string -> Result<string, ClientError>,
                          nav: string, configs: seq<ConfigSample>)
    requires s.result.Success? && s.cursor <= |incoming|
    ensures var t := FetchPage(incoming, s, resolve, nav, configs);
      t.result.Success? ==> resolve(nav).Success? && Requests(t.sent) == Requests(s.sent) + ["GET;" + resolve(nav).value]
  {
    var t := FetchPage(incoming, s, resolve, nav, configs);
    FetchPageSuccess(incoming, s, resolve, nav, configs);
    if t.result.Success? {
      var id := resolve(nav).value;
      var d := Drain(incoming[s.cursor..]);
      assert t.sent == s.sent + [Text("GET;" + id)] + d.replies;
      RequestsAppend(s.sent + [Text("GET;" + id)], d.replies);
      RequestsAppend(s.sent, [Text("GET;" + id)]);
      assert Requests([Text("GET;" + id)]) == ["GET;" + id] by {
        assert [Text("GET;" + id)][..0] == [];
      }
      DrainWritesNoRequest(incoming[s.cursor..]);
    }
  }

  /** A successful fetch writes exactly one request per visited page, in the
      visited order, and each is "GET;" followed by the id its menu path
      resolves to; everything else it writes answers pings and close frames. */
  lemma {:induction false} FetchRequests(incoming: seq<Incoming>, from: Step, resolve: string -> Result<string, ClientError>,
                                         groups: map<string, seq<ConfigSample>>, order: seq<string>)
    requires from.result.Success? && from.cursor <= |incoming| && from.sent == []
    requires forall k :: 0 <= k < |order| ==> order[k] in groups
    ensures var t := Fetch(incoming, from, resolve, groups, order);
      t.result.Success? ==> RequestsFor(Requests(t.sent), order, resolve)
    decreases |order|
  {
    if order != [] {
      var init := order[..|order| - 1];
      FetchRequests(incoming, from, resolve, groups, init);
      var s := Fetch(incoming, from, resolve, groups, init);
      var nav := order[|order| - 1];
      if s.result.Success? {
        var t := FetchPage(incoming, s, resolve, nav, groups[nav]);
        assert Fetch(incoming, from, resolve, groups, order) == t;
        FetchPageRequests(incoming, s, resolve, nav, groups[nav]);
        if t.result.Success? {
          RequestsForSnoc(Requests(s.sent), init, resolve, nav);
          assert init + [nav] == order;
        }
      }
    }
  }

  /** The whole exchange of one poll, after `sent` was written and with the
      socket at `cursor`: log in with "LOGIN;<code>", deserialise the reply
      into the navigation tree, then fetch the pages. */
  function Session(incoming: seq<Incoming>, cursor: nat, sent: seq<Frame>, loginCode: string,
                   parse: string -> Result<NavigationTree.Navigation, ClientError>,
                   groups: map<string, seq<ConfigSample>>, order: seq<string>): (t: Step)
    requires cursor <= |incoming|
    requires forall k :: 0 <= k < |order| ==> order[k] in groups
    ensures cursor <= t.cursor <= |incoming|
  {
    var d := Drain(incoming[cursor..]);
    var loggedIn := Step(Success([]), cursor + d.consumed, sent + [Text("LOGIN;" + loginCode)] + d.replies);
    match d.result
    case Failure(e) => loggedIn.(result := Failure(e))
    case Success(reply) =>
      match parse(reply)
      case Failure(e) => loggedIn.(result := Failure(e))
      case Success(navigation) => Fetch(incoming, loggedIn, NavigationTree.Resolver(navigation), groups, order)
  }

  /** The state right after the login exchange. */
  function LoggedIn(incoming: seq<Incoming>, cursor: nat, sent: seq<Frame>, loginCode: string): (s: Step)
    requires cursor <= |incoming|
    ensures s.result.Success? && s.cursor <= |incoming|
  {
    var d := Drain(incoming[cursor..]);
    Step(Success([]), cursor + d.consumed, sent + [Text("LOGIN;" + loginCode)] + d.replies)
  }

  /** A session is the login exchange followed, once the navigation tree is
      known, by the fetch of the pages. */
  lemma SessionSplits(incoming: seq<Incoming>, cursor: nat, sent: seq<Frame>, loginCode: string,
                      parse: string -> Result<NavigationTree.Navigation, ClientError>,
                      groups: map<string, seq<ConfigSample>>, order: seq<string>)
    requires cursor <= |incoming|
    requires forall k :: 0 <= k < |order| ==> order[k] in groups
    ensures var d := Drain(incoming[cursor..]);
      var s := LoggedIn(incoming, cursor, sent, loginCode);
      var t := Session(incoming, cursor, sent, loginCode, parse, groups, order);
      && (d.result.Failure? ==> t == s.(result := Failure(d.result.error)))
      && (d.result.Success? && parse(d.result.value).Failure? ==> t == s.(result := Failure(parse(d.result.value).error)))
      && (d.result.Success? && parse(d.result.value).Success? ==>
            t == Fetch(incoming, s, NavigationTree.Resolver(parse(d.result.value).value), groups, order))
  {
  }

  /** The poll as written, with the grouping stub: there is no group, so after
      the login nothing is requested, and a poll that gets past the login
      returns no sample at all, however many configurations there are. */
  lemma StubPollReadsNothing(incoming: seq<Incoming>, cursor: nat, loginCode: string,
                             parse: string -> Result<NavigationTree.Navigation, ClientError>,
                             configs: seq<ConfigSample>, order: seq<string>)
    requires cursor <= |incoming|
    requires Grouping.Enumerates(order, Grouping.GroupSampleConfigsStub(configs).Keys)
    ensures order == []
    ensures var t := Session(incoming, cursor, [], loginCode, parse, Grouping.GroupSampleConfigsStub(configs), order);
      var d := Drain(incoming[cursor..]);
      && Requests(t.sent) == ["LOGIN;" + loginCode]
      && (d.result.Success? && parse(d.result.value).Success? ==> t.result == Success([]))
      && (t.result.Success? ==> t.result.value == [])
  {
    assert Grouping.GroupSampleConfigsStub(configs).Keys == {};
    Grouping.EnumeratesCount(order, Grouping.GroupSampleConfigsStub(configs).Keys);
    var d := Drain(incoming[cursor..]);
    var login := [Text("LOGIN;" + loginCode)];
    RequestsAppend([] + login, d.replies);
    assert [] + login == login;
    assert Requests(login) == ["LOGIN;" + loginCode] by {
      assert login[..0] == [];
    }
    DrainWritesNoRequest(incoming[cursor..]);
  }

  /** The samples after sanitising against the previous measurement, when there is one. */
  function Sanitized(samples: seq<Sample>, last: Option<Measurement>): (r: seq<Sample>)
    ensures |r| == |samples|
    ensures last.None? ==> r == samples
  {
    match last
    case None => samples
    case Some(lm) => Sanitize.SanitizeAll(samples, lm.samples)
  }

  /** A sanitised sample describes the same series as the sample it replaces,
      and is either that sample or a sample of the previous measurement. */
  lemma SanitizedKeepsSeries(samples: seq<Sample>, last: Option<Measurement>, i: nat)
    requires i < |samples|
    ensures Sanitized(samples, last)[i].SameSeries(samples[i])
    ensures last.None? ==> Sanitized(samples, last)[i] == samples[i]
    ensures last.Some? ==> Sanitized(samples, last)[i] == samples[i] || Sanitized(samples, last)[i] in last.value.samples
  {
    if last.Some? {
      Sanitize.SanitizeKeepsSeries(samples[i], last.value.samples);
    }
  }

  /** The websocket client, holding the login code from its configuration (the
      host and port it also holds serve only to open the socket). */
  class WebsocketClient {
    const loginCode: string

    constructor (loginCode: string)
      ensures this.loginCode == loginCode
    {
      this.loginCode := loginCode;
    }

    /** login: sends "LOGIN;<code>" and deserialises the reply. */
    method Login(conn: Connection, parse: string -> Result<NavigationTree.Navigation, ClientError>)
      returns (r: Result<NavigationTree.Navigation, ClientError>)
      requires conn.Valid()
      modifies conn
      ensures conn.Valid() && conn.incoming == old(conn.incoming)
      ensures var d := Drain(old(conn.incoming)[old(conn.cursor)..]);
        && conn.sent == old(conn.sent) + [Text("LOGIN;" + loginCode)] + d.replies
        && conn.cursor == old(conn.cursor) + d.consumed
        && r == (if d.result.Failure? then Failure(d.result.error) else parse(d.result.value))
    {
      var reply := conn.SendAndAwait(Text("LOGIN;" + loginCode));
      if reply.Failure? {
        return Failure(reply.error);
      }
      r := parse(reply.value);
    }

    /** The inner loop of get_samples: reads each configuration of one page
        from the page's reply, stopping at the first failure. */
    method ReadPage(configs: seq<ConfigSample>, reply: string) returns (r: Result<seq<Sample>, ClientError>)
      ensures r == PageSamples(configs, Reader(reply))
    {
      var samples: seq<Sample> := [];
      for j := 0 to |configs|
        invariant PageSamples(configs[..j], Reader(reply)) == Success(samples)
      {
        var read := PageItems.ItemFromResponse(configs[j].item, reply);
        PageSamplesStep(configs, Reader(reply), j);
        if read.Failure? {
          PageSamplesStops(configs, Reader(reply), j + 1);
          return Failure(read.error);
        }
        samples := samples + [SampleFrom(configs[j], read.value.value)];
      }
      assert configs[..|configs|] == configs;
      return Success(samples);
    }

    /** One iteration of get_samples: resolve the group's page, request it
        with "GET;<id>", await the reply and read the group from it. */
    method FetchGroup(conn: Connection, navigation: NavigationTree.Navigation, nav: string, configs: seq<ConfigSample>)
      returns (r: Result<seq<Sample>, ClientError>)
      requires conn.Valid()
      modifies conn
      ensures conn.Valid() && conn.incoming == old(conn.incoming)
      ensures var t := FetchPage(old(conn.incoming), Step(Success([]), old(conn.cursor), old(conn.sent)),
                                 NavigationTree.Resolver(navigation), nav, configs);
        && conn.sent == t.sent
        && conn.cursor == t.cursor
        && r == t.result
    {
      ghost var start := conn.cursor;
      ghost var t := FetchPage(conn.incoming, Step(Success([]), start, conn.sent), NavigationTree.Resolver(navigation), nav, configs);
      var id := NavigationTree.GetNavigationItemID(navigation, nav);
      assert NavigationTree.Resolver(navigation)(nav) == id;
      if id.Failure? {
        assert t == Step(Failure(id.error), start, conn.sent);
        return Failure(id.error);
      }
      ghost var d := Drain(conn.incoming[start..]);
      assert t.sent == conn.sent + [Text("GET;" + id.value)] + d.replies && t.cursor == start + d.consumed;
      var reply := conn.SendAndAwait(Text("GET;" + id.value));
      if reply.Failure? {
        assert t.result == Failure(reply.error);
        return Failure(reply.error);
      }
      r := ReadPage(configs, reply.value);
      if r.Success? {
        assert [] + r.value == r.value;
      }
      assert t.result == r;
    }

    /** get_samples: for each group, resolve its page, request it once and
        read the group's samples from the reply. */
    method GetSamples(conn: Connection, groups: map<string, seq<ConfigSample>>, order: seq<string>,
                      navigation: NavigationTree.Navigation)
      returns (r: Result<seq<Sample>, ClientError>)
      requires conn.Valid()
      requires Grouping.Enumerates(order, groups.Keys)
      modifies conn
      ensures conn.Valid() && conn.incoming == old(conn.incoming)
      ensures var t := Fetch(old(conn.incoming), Step(Success([]), old(conn.cursor), old(conn.sent)),
                             NavigationTree.Resolver(navigation), groups, order);
        && conn.sent == t.sent
        && conn.cursor == t.cursor
        && r == t.result
    {
      ghost var incoming := conn.incoming;
      ghost var from := Step(Success([]), conn.cursor, conn.sent);
      var samples: seq<Sample> := [];
      for i := 0 to |order|
        invariant conn.Valid() && conn.incoming == incoming
        invariant Fetch(incoming, from, NavigationTree.Resolver(navigation), groups, order[..i]) == Step(Success(samples), conn.cursor, conn.sent)
      {
        var nav := order[i];
        ghost var s := Fetch(incoming, from, NavigationTree.Resolver(navigation), groups, order[..i]);
        FetchStep(incoming, from, NavigationTree.Resolver(navigation), groups, order, i);
        FetchPageFrom(incoming, s, NavigationTree.Resolver(navigation), nav, groups[nav]);
        var page := FetchGroup(conn, navigation, nav, groups[nav]);
        if page.Failure? {
          FetchStops(incoming, from, NavigationTree.Resolver(navigation), groups, order, i + 1);
          return Failure(page.error);
        }
        samples := samples + page.value;
      }
      assert order[..|order|] == order;
      return Success(samples);
    }

    /** get_measurement: log in, group the configurations by page, fetch them,
        and sanitise against the last measurement when one is given. The
        identifier and the timestamp are parameters. */
    method GetMeasurement(conn: Connection, config: Config, last: Option<Measurement>,
                          parse: string -> Result<NavigationTree.Navigation, ClientError>,
                          order: seq<string>, id: string, now: int)
      returns (r: Result<Measurement, ClientError>)
      requires conn.Valid()
      requires Grouping.Enumerates(order, Grouping.Navigations(config.sampleConfigs))
      modifies conn
      ensures conn.Valid() && conn.incoming == old(conn.incoming)
      ensures var t := Session(old(conn.incoming), old(conn.cursor), old(conn.sent), loginCode, parse,
                               Grouping.Grouped(config.sampleConfigs), order);
        && conn.sent == t.sent
        && conn.cursor == t.cursor
        && (r.Failure? <==> t.result.Failure?)
        && (r.Failure? ==> r.error == t.result.error)
        && (r.Success? ==> r.value == Measurement(id, MeasurementSource, config.location, Sanitized(t.result.value, last), now))
    {
      ghost var incoming := conn.incoming;
      ghost var d := Drain(incoming[conn.cursor..]);
      ghost var loggedIn := LoggedIn(incoming, conn.cursor, conn.sent, loginCode);
      ghost var t := Session(incoming, conn.cursor, conn.sent, loginCode, parse, Grouping.Grouped(config.sampleConfigs), order);
      SessionSplits(incoming, conn.cursor, conn.sent, loginCode, parse, Grouping.Grouped(config.sampleConfigs), order);
      var navigation := Login(conn, parse);
      assert conn.sent == loggedIn.sent && conn.cursor == loggedIn.cursor;
      var groups := Grouping.GroupSampleConfigsPerNavigation(config.sampleConfigs);
      Grouping.GroupedIs(config.sampleConfigs, groups);
      if navigation.Failure? {
        assert t == loggedIn.(result := Failure(navigation.error));
        return Failure(navigation.error);
      }
      assert d.result.Success? && parse(d.result.value) == navigation;
      assert t == Fetch(incoming, loggedIn, NavigationTree.Resolver(navigation.value), Grouping.Grouped(config.sampleConfigs), order);
      var samples := GetSamples(conn, groups, order, navigation.value);
      if samples.Failure? {
        return Failure(samples.error);
      }
      var sanitized := samples.value;
      if last.Some? {
        sanitized := Sanitize.SanitizeSamples(samples.value, last.value.samples);
      }
      assert sanitized == Sanitized(samples.value, last);
      r := Success(Measurement(id, MeasurementSource, config.location, sanitized, now));
    }
  }

  /** What a successful fetch of the intended grouping holds: one sample per
      configuration, each describing a configuration of the list, and every
      configuration described exactly once (the described configurations are
      a permutation of the list). */
  lemma PollCoversConfigs(incoming: seq<Incoming>, cursor: nat, resolve: string -> Result<string, ClientError>,
                          configs: seq<ConfigSample>, order: seq<string>)
    requires cursor <= |incoming|
    requires Grouping.Enumerates(order, Grouping.Navigations(configs))
    ensures var groups := Grouping.Grouped(configs);
      var t := Fetch(incoming, Step(Success([]), cursor, []), resolve, groups, order);
      t.result.Success? ==>
        && |t.result.value| == |configs|
        && multiset(Grouping.Gathered(groups, order)) == multiset(configs)
        && DescribesAll(t.result.value, Grouping.Gathered(groups, order))
  {
    var groups := Grouping.Grouped(configs);
    FetchSamples(incoming, Step(Success([]), cursor, []), resolve, groups, order);
    Grouping.GroupsPermuteConfigs(configs, groups, order);
    assert |multiset(Grouping.Gathered(groups, order))| == |multiset(configs)|;
  }
}
