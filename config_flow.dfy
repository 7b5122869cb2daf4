/** The configuration flow: the user step that creates an entry and the
    options step that edits its address list. The connectivity probes are
    network I/O; their outcome is an input. */
module ConfigFlow {
  import opened Json
  import opened Text
  import Coordinator

  // Python's `str.strip()`, `str.split(",")` and `str.join`

  /** `str.isspace()` for one character: the ASCII whitespace and separator
      controls, and the Unicode spaces and line/paragraph separators. */
  predicate IsSpace(c: char)
  {
    || c == ' ' || c == '\t' || c == '\n' || c == '\r' || c == '\U{000B}' || c == '\U{000C}'
    || ('\U{001C}' <= c <= '\U{001F}') || c == '\U{0085}' || c == '\U{00A0}' || c == '\U{1680}'
    || ('\U{2000}' <= c <= '\U{200A}') || c == '\U{2028}' || c == '\U{2029}' || c == '\U{202F}'
    || c == '\U{205F}' || c == '\U{3000}'
  }

  /** A string with no whitespace at either end. */
  predicate Stripped(s: string)
  {
    s == [] || (!IsSpace(s[0]) && !IsSpace(s[|s| - 1]))
  }

  /** `s.lstrip()`: what is left once the leading whitespace is dropped. */
  function StripLeading(s: string): string
  {
    if s != [] && IsSpace(s[0]) then StripLeading(s[1..]) else s
  }

  /** `s.rstrip()`: what is left once the trailing whitespace is dropped. */
  function StripTrailing(s: string): string
  {
    if s != [] && IsSpace(s[|s| - 1]) then StripTrailing(s[..|s| - 1]) else s
  }

  /** `s.strip()`. */
  function Strip(s: string): string
  {
    StripTrailing(StripLeading(s))
  }

  /** `lstrip` keeps a suffix that does not start with whitespace and drops
      only whitespace. */
  lemma {:induction false} StripLeadingCuts(s: string)
    ensures var r := StripLeading(s);
      && |r| <= |s| && r == s[|s| - |r|..]
      && (forall k :: 0 <= k < |s| - |r| ==> IsSpace(s[k]))
      && (r == [] || !IsSpace(r[0]))
  {
    if s != [] && IsSpace(s[0]) {
      var t := s[1..];
      StripLeadingCuts(t);
      var r := StripLeading(t);
      assert t[|t| - |r|..] == s[|s| - |r|..];
      forall k | 0 <= k < |s| - |r|
        ensures IsSpace(s[k])
      {
        if k > 0 {
          assert s[k] == t[k - 1];
        }
      }
    }
  }

  /** `rstrip` keeps a prefix that does not end with whitespace and drops
      only whitespace. */
  lemma {:induction false} StripTrailingCuts(s: string)
    ensures var r := StripTrailing(s);
      && |r| <= |s| && r == s[..|r|]
      && (forall k :: |r| <= k < |s| ==> IsSpace(s[k]))
      && (r == [] || !IsSpace(r[|r| - 1]))
  {
    if s != [] && IsSpace(s[|s| - 1]) {
      var t := s[..|s| - 1];
      StripTrailingCuts(t);
      var r := StripTrailing(t);
      assert t[..|r|] == s[..|r|];
      forall k | |r| <= k < |s|
        ensures IsSpace(s[k])
      {
        if k < |s| - 1 {
          assert s[k] == t[k];
        }
      }
    }
  }

  /** Stripping leaves no whitespace at either end. */
  lemma StripIsStripped(s: string)
    ensures Stripped(Strip(s))
  {
    var l := StripLeading(s);
    StripLeadingCuts(s);
    var r := StripTrailing(l);
    StripTrailingCuts(l);
    if r != [] {
      assert r[0] == l[0];
    }
  }

  /** Everything outside `s[i..j]` is whitespace. */
  predicate SpaceOutside(s: string, i: int, j: int)
    requires 0 <= i <= j <= |s|
  {
    && (forall k :: 0 <= k < i ==> IsSpace(s[k]))
    && (forall k :: j <= k < |s| ==> IsSpace(s[k]))
  }

  /** Stripping cuts only whitespace, and only from either end. */
  lemma StripCutsOnlyWhitespace(s: string)
    ensures exists i, j :: 0 <= i <= j <= |s| && Strip(s) == s[i..j] && SpaceOutside(s, i, j)
  {
    var l := StripLeading(s);
    StripLeadingCuts(s);
    var r := StripTrailing(l);
    StripTrailingCuts(l);
    var i := |s| - |l|;
    var j := i + |r|;
    assert l == s[i..];
    assert l[..|r|] == s[i..j];
    forall k | j <= k < |s|
      ensures IsSpace(s[k])
    {
      assert s[k] == l[k - i];
    }
    assert SpaceOutside(s, i, j);
    assert Strip(s) == s[i..j];
  }

  /** Stripping leaves a stripped string alone. */
  lemma StripKeepsStripped(s: string)
    requires Stripped(s)
    ensures Strip(s) == s
  {
    assert StripLeading(s) == s;
  }

  /** A string with whitespace before a stripped text strips to the text. */
  lemma StripAfterSpace(c: char, x: string)
    requires IsSpace(c) && Stripped(x)
    ensures Strip([c] + x) == x
  {
    var y := [c] + x;
    assert y[1..] == x;
    assert StripLeading(y) == StripLeading(x);
    StripKeepsStripped(x);
  }

  function CommaCount(s: string): nat
  {
    if s == [] then 0 else (if s[0] == ',' then 1 else 0) + CommaCount(s[1..])
  }

  /** `s.split(",")`: the fields between commas, always at least one. */
  function Split(s: string): (r: seq<string>)
    ensures |r| == CommaCount(s) + 1
    ensures forall i :: 0 <= i < |r| ==> ',' !in r[i]
  {
    if s == [] then [""]
    else
      var rest := Split(s[1..]);
      if s[0] == ',' then [""] + rest
      else [[s[0]] + rest[0]] + rest[1..]
  }

  /** `sep.join(xs)`. */
  function Join(sep: string, xs: seq<string>): string
  {
    if xs == [] then ""
    else if |xs| == 1 then xs[0]
    else xs[0] + sep + Join(sep, xs[1..])
  }

  lemma JoinPrependsToFirst(sep: string, c: char, xs: seq<string>)
    requires |xs| > 0
    ensures Join(sep, [[c] + xs[0]] + xs[1..]) == [c] + Join(sep, xs)
  {
    var ys := [[c] + xs[0]] + xs[1..];
    assert ys[1..] == xs[1..];
  }

  /** Joining the fields with "," rebuilds the string that was split. */
  lemma {:induction false} JoinUndoesSplit(s: string)
    ensures Join(",", Split(s)) == s
  {
    if s != [] {
      var rest := Split(s[1..]);
      JoinUndoesSplit(s[1..]);
      if s[0] == ',' {
        assert ([""] + rest)[1..] == rest;
        assert s == "" + "," + s[1..];
      } else {
        JoinPrependsToFirst(",", s[0], rest);
        assert s == [s[0]] + s[1..];
      }
    }
  }

  /** Splitting a string whose first comma follows `a`. */
  lemma {:induction false} SplitAfterField(a: string, b: string)
    requires ',' !in a
    ensures Split(a + "," + b) == [a] + Split(b)
    ensures Split(a) == [a]
  {
    if a != [] {
      assert (a + "," + b)[1..] == a[1..] + "," + b;
      SplitAfterField(a[1..], b);
      assert a == [a[0]] + a[1..];
    }
  }

  /** `[f.strip() for f in fields]`. */
  function StripAll(fields: seq<string>): (r: seq<string>)
    ensures |r| == |fields|
    ensures forall i :: 0 <= i < |fields| ==> r[i] == Strip(fields[i])
  {
    seq(|fields|, i requires 0 <= i < |fields| => Strip(fields[i]))
  }

  /** The parse of an address string: one stripped field per comma-separated
      field, so one more than the number of commas. */
  function ParseAddresses(s: string): (r: seq<string>)
    ensures |r| == CommaCount(s) + 1
    ensures forall i :: 0 <= i < |r| ==> Stripped(r[i]) && ',' !in r[i]
  {
    var fields := Split(s);
    var r := StripAll(fields);
    assert forall i :: 0 <= i < |r| ==> Stripped(r[i]) && ',' !in r[i] by {
      forall i | 0 <= i < |r| ensures Stripped(r[i]) && ',' !in r[i] {
        StripIsStripped(fields[i]);
        StripCutsOnlyWhitespace(fields[i]);
      }
    }
    r
  }

  lemma ParseAfterField(a: string, b: string)
    requires ',' !in a
    ensures ParseAddresses(a + "," + b) == [Strip(a)] + ParseAddresses(b)
  {
    SplitAfterField(a, b);
  }

  lemma StripSkipsSpace(c: char, x: string)
    requires IsSpace(c)
    ensures Strip([c] + x) == Strip(x)
  {
    var y := [c] + x;
    assert y[1..] == x;
    assert StripLeading(y) == StripLeading(x);
  }

  /** Whitespace before the first field does not change the parse. */
  lemma ParseAfterSpace(c: char, t: string)
    requires IsSpace(c) && c != ','
    ensures ParseAddresses([c] + t) == ParseAddresses(t)
  {
    var y := [c] + t;
    assert y[1..] == t;
    var fields := Split(t);
    var spaced := [[c] + fields[0]] + fields[1..];
    assert Split(y) == spaced;
    StripSkipsSpace(c, fields[0]);
    var p, q := StripAll(spaced), StripAll(fields);
    assert forall i :: 0 <= i < |q| ==> p[i] == q[i];
    assert p == q;
  }

  /** The address list shown as the options form's default: the stored list
      joined with ", " parses back to itself when no address holds a comma
      or surrounding whitespace. */
  lemma {:induction false} ParseUndoesDisplayJoin(xs: seq<string>)
    requires |xs| > 0
    requires forall i :: 0 <= i < |xs| ==> Stripped(xs[i]) && ',' !in xs[i]
    ensures ParseAddresses(Join(", ", xs)) == xs
  {
    StripKeepsStripped(xs[0]);
    if |xs| == 1 {
      SplitAfterField(xs[0], "");
    } else {
      var tail := Join(", ", xs[1..]);
      ParseUndoesDisplayJoin(xs[1..]);
      assert Join(", ", xs) == xs[0] + "," + ([' '] + tail);
      ParseAfterField(xs[0], [' '] + tail);
      ParseAfterSpace(' ', tail);
      assert xs == [xs[0]] + xs[1..];
    }
  }

  // Address validation and the connection test

  /** The basic check `_test_connection` applies to each address. */
  predicate IsValidBtcAddress(a: string)
  {
    (StartsWith(a, "1") || StartsWith(a, "3") || StartsWith(a, "bc1")) && 26 <= |a| <= 42
  }

  /** The errors the flow turns into form messages. */
  datatype FlowError = CannotConnect | InvalidBtcAddress | Unexpected

  /** How the two probe requests (`/api/info`, then `/api/client/` of the
      first address) went. */
  datatype ProbeOutcome =
    | BothOk
    | InfoNotOk            // `/api/info` answered other than 200
    | ClientNotOk          // the client endpoint answered other than 200
    | Unreachable          // `aiohttp.ClientError` or `asyncio.TimeoutError`
    | OtherException       // anything else, caught by the step's broad `except`

  /** What a probe outcome raises, if anything. */
  function ProbeError(probe: ProbeOutcome): Option<FlowError>
  {
    match probe
    case BothOk => None
    case InfoNotOk => Some(CannotConnect)
    case ClientNotOk => Some(InvalidBtcAddress)
    case Unreachable => Some(CannotConnect)
    case OtherException => Some(Unexpected)
  }

  /** The error code the user step shows for each error. */
  function ErrorCode(e: FlowError): string
  {
    match e
    case CannotConnect => "cannot_connect"
    case InvalidBtcAddress => "invalid_btc_address"
    case Unexpected => "unknown"
  }

  /** Distinct errors show distinct codes. */
  lemma ErrorCodesDistinct(e1: FlowError, e2: FlowError)
    requires e1 != e2
    ensures ErrorCode(e1) != ErrorCode(e2)
  {
    match e1
    case CannotConnect => assert ErrorCode(e1)[0] == 'c';
    case InvalidBtcAddress => assert ErrorCode(e1)[0] == 'i';
    case Unexpected => assert ErrorCode(e1)[0] == 'u';
  }

  /** `_test_connection`: checks every address first and only then probes
      the server. `probed` tells whether the probes were made at all. */
  method TestConnection(btcAddresses: seq<string>, probe: ProbeOutcome) returns (error: Option<FlowError>, probed: bool)
    ensures probed <==> forall k :: 0 <= k < |btcAddresses| ==> IsValidBtcAddress(btcAddresses[k])
    ensures !probed ==> error == Some(InvalidBtcAddress)
    ensures probed ==> error == ProbeError(probe)
  {
    for i := 0 to |btcAddresses|
      invariant forall k :: 0 <= k < i ==> IsValidBtcAddress(btcAddresses[k])
    {
      if !IsValidBtcAddress(btcAddresses[i]) {
        return Some(InvalidBtcAddress), false;
      }
    }
    return ProbeError(probe), true;
  }

  // The user step

  /** The user form: host, optional port, the comma-separated address
      text and optional scan interval. */
  datatype UserInput = UserInput(host: string, port: Option<int>, btcAddresses: string, scanInterval: Option<int>)

  /** The entry data the user step stores: the form with the address text
      replaced by the parsed list. */
  datatype EntryData = EntryData(host: string, port: Option<int>, btcAddresses: seq<string>, scanInterval: Option<int>)

  datatype FlowResult =
    | ShowForm(stepId: string, errors: map<string, string>)
    | AbortFlow(reason: string)
    | CreateEntry(title: string, data: EntryData)

  /** The entry's unique id `f"{host}:{port}"`. */
  function UniqueId(host: string, port: int): string
  {
    host + ":" + IntToString(port)
  }

  /** Two servers get the same unique id only if host and port both agree. */
  lemma UniqueIdInjective(h1: string, p1: int, h2: string, p2: int)
    requires UniqueId(h1, p1) == UniqueId(h2, p2)
    ensures h1 == h2 && p1 == p2
  {
    RenderingAlphabet(p1, ':');
    RenderingAlphabet(p2, ':');
    SplitLastOf(h1, ':', IntToString(p1));
    SplitLastOf(h2, ':', IntToString(p2));
    IntToStringInjective(p1, p2);
  }

  /** `async_step_user`. `configured` holds the unique ids of the entries
      that already exist; the method also reports the unique id it set. */
  method AsyncStepUser(userInput: Option<UserInput>, configured: set<string>, probe: ProbeOutcome)
    returns (result: FlowResult, uniqueId: Option<string>)
    ensures userInput.None? ==> result == ShowForm("user", map[]) && uniqueId.None?
    ensures userInput.Some? ==>
      var input := userInput.value;
      var port := if input.port.Some? then input.port.value else Coordinator.DefaultPort;
      var id := UniqueId(input.host, port);
      var addresses := ParseAddresses(input.btcAddresses);
      var allValid := forall k :: 0 <= k < |addresses| ==> IsValidBtcAddress(addresses[k]);
      var error := if allValid then ProbeError(probe) else Some(InvalidBtcAddress);
      && uniqueId == Some(id)
      && (id in configured ==> result == AbortFlow("already_configured"))
      && (id !in configured && error.None? ==>
            result == CreateEntry("Mining Server at " + id, EntryData(input.host, input.port, addresses, input.scanInterval)))
      && (id !in configured && error.Some? ==> result == ShowForm("user", map["base" := ErrorCode(error.value)]))
    ensures result.CreateEntry? ==>
      && |result.data.btcAddresses| > 0
      && (forall a :: a in result.data.btcAddresses ==> IsValidBtcAddress(a))
      && probe == BothOk
  {
    var errors: map<string, string> := map[];
    uniqueId := None;
    if userInput.Some? {
      var input := userInput.value;
      var host := input.host;
      var port := if input.port.Some? then input.port.value else Coordinator.DefaultPort;
      uniqueId := Some(UniqueId(host, port));
      if uniqueId.value in configured {
        return AbortFlow("already_configured"), uniqueId;
      }
      var btcAddresses := ParseAddresses(input.btcAddresses);
      var error, _ := TestConnection(btcAddresses, probe);
      if error.None? {
        CreatedEntriesHoldValidAddresses(input, configured, probe);
        return CreateEntry("Mining Server at " + host + ":" + IntToString(port),
                           EntryData(host, input.port, btcAddresses, input.scanInterval)), uniqueId;
      }
      errors := errors["base" := ErrorCode(error.value)];
    }
    result := ShowForm("user", errors);
  }

  /** A new entry only ever holds addresses that pass the basic check, and
      at least one of them. */
  lemma CreatedEntriesHoldValidAddresses(userInput: UserInput, configured: set<string>, probe: ProbeOutcome)
    requires var port := if userInput.port.Some? then userInput.port.value else Coordinator.DefaultPort;
      var addresses := ParseAddresses(userInput.btcAddresses);
      var allValid := forall k :: 0 <= k < |addresses| ==> IsValidBtcAddress(addresses[k]);
      var error := if allValid then ProbeError(probe) else Some(InvalidBtcAddress);
      UniqueId(userInput.host, port) !in configured && error.None?
    ensures |ParseAddresses(userInput.btcAddresses)| > 0
    ensures forall a :: a in ParseAddresses(userInput.btcAddresses) ==> IsValidBtcAddress(a)
    ensures probe == BothOk
  {
  }

  // The options step

  /** The address value of an options form or of stored entry data: absent,
      text, or a list. */
  datatype AddressField = NoAddresses | AddressText(text: string) | AddressList(items: seq<string>)

  datatype OptionsInput = OptionsInput(btcAddresses: AddressField, scanInterval: Option<int>)

  datatype OptionsResult =
    | OptionsForm(addressesDefault: string, scanIntervalDefault: int)
    | OptionsEntry(title: string, data: OptionsInput)

  /** The text shown as the address default: a stored list joined with ", ",
      any other stored value as it is, nothing as "". */
  function DisplayAddresses(stored: AddressField): string
  {
    match stored
    case NoAddresses => Join(", ", [])
    case AddressText(t) => t
    case AddressList(xs) => Join(", ", xs)
  }

  /** `async_step_init`: re-parses submitted address text, passes a list or
      a missing value through, and otherwise shows the form with the stored
      values as defaults. */
  method AsyncStepInit(userInput: Option<OptionsInput>, stored: AddressField, storedScanInterval: Option<int>)
    returns (result: OptionsResult)
    ensures userInput.Some? ==>
      && result.OptionsEntry? && result.title == ""
      && result.data.scanInterval == userInput.value.scanInterval
      && (userInput.value.btcAddresses.AddressText? ==>
            result.data.btcAddresses == AddressList(ParseAddresses(userInput.value.btcAddresses.text)))
      && (!userInput.value.btcAddresses.AddressText? ==> result.data.btcAddresses == userInput.value.btcAddresses)
    ensures userInput.None? ==>
      result == OptionsForm(DisplayAddresses(stored),
                            if storedScanInterval.Some? then storedScanInterval.value else Coordinator.DefaultScanInterval)
  {
    if userInput.Some? {
      var input := userInput.value;
      if input.btcAddresses.AddressText? {
        input := input.(btcAddresses := AddressList(ParseAddresses(input.btcAddresses.text)));
      }
      return OptionsEntry("", input);
    }
    var btcAddressesStr := DisplayAddresses(stored);
    var scanInterval := if storedScanInterval.Some? then storedScanInterval.value else Coordinator.DefaultScanInterval;
    result := OptionsForm(btcAddressesStr, scanInterval);
  }

  /** Submitting the options form with its address default unchanged stores
      the same list again, when no stored address holds a comma or
      surrounding whitespace. */
  lemma OptionsKeepStoredList(xs: seq<string>)
    requires |xs| > 0
    requires forall i :: 0 <= i < |xs| ==> Stripped(xs[i]) && ',' !in xs[i]
    ensures ParseAddresses(DisplayAddresses(AddressList(xs))) == xs
  {
    ParseUndoesDisplayJoin(xs);
  }
}
