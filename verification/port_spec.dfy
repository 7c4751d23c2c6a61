/**
 * The `-p/--ports` argument of the scanner's command line, turned into the list
 * of ports to probe (simple_network_scanner.py, `main`, lines 193-206).
 * A string holding `-` is an inclusive `start-end` range; any other string is a
 * comma-separated list. A `ValueError` from `int()` or from unpacking the range
 * ends the program with "[!] Invalid port specification" and exit status 1.
 */
module PortSpec {
  import opened Wrappers
  import opened Text
  import Seqs

  datatype PortSpecError = InvalidPortSpecification

  /** `[int(p) for p in tokens]`: the first token that is not an integer is an error. */
  function ParseList(tokens: seq<string>): (r: Result<seq<int>, PortSpecError>)
    ensures r.Ok? <==> forall i :: 0 <= i < |tokens| ==> ParseInt(tokens[i]).Some?
    ensures r.Ok? ==> |r.value| == |tokens|
    ensures r.Ok? ==> forall i :: 0 <= i < |tokens| ==> ParseInt(tokens[i]) == Some(r.value[i])
  {
    if tokens == [] then Ok([])
    else
      match ParseInt(tokens[0])
      case None => Err(InvalidPortSpecification)
      case Some(port) =>
        match ParseList(tokens[1..])
        case Err(e) => Err(e)
        case Ok(rest) => Ok([port] + rest)
  }

  /** `start, end = map(int, bounds)` then `list(range(start, end + 1))`: unpacking
      anything but two pieces, or a piece that is not an integer, is an error. */
  function ParseRange(bounds: seq<string>): Result<seq<int>, PortSpecError>
  {
    if |bounds| != 2 then Err(InvalidPortSpecification)
    else
      match (ParseInt(bounds[0]), ParseInt(bounds[1]))
      case (Some(start), Some(end)) => Ok(Seqs.Range(start, end + 1))
      case _ => Err(InvalidPortSpecification)
  }

  /** The port list a non-empty `-p` argument denotes. */
  function ParsePorts(spec: string): Result<seq<int>, PortSpecError>
  {
    if '-' in spec then ParseRange(Split(spec, '-')) else ParseList(Split(spec, ','))
  }

  /** `if args.ports:` — an absent or empty argument leaves `ports` as None, the default set. */
  function ParsePortArgument(arg: Option<string>): Result<Option<seq<int>>, PortSpecError>
  {
    if arg.None? || arg.value == "" then Ok(None)
    else
      match ParsePorts(arg.value)
      case Ok(ports) => Ok(Some(ports))
      case Err(e) => Err(e)
  }

  /** List form: one port per comma-separated token, same count, same order, duplicates kept. */
  lemma ParsePortsListForm(spec: string)
    requires '-' !in spec
    ensures var tokens := Split(spec, ',');
      && (ParsePorts(spec).Ok? <==> forall i :: 0 <= i < |tokens| ==> ParseInt(tokens[i]).Some?)
      && (ParsePorts(spec).Ok? ==>
            && |ParsePorts(spec).value| == |tokens|
            && forall i :: 0 <= i < |tokens| ==> Some(ParsePorts(spec).value[i]) == ParseInt(tokens[i]))
  {
    assert ParsePorts(spec) == ParseList(Split(spec, ','));
  }

  /** Range form: exactly two integer bounds, giving the ascending run `start..end`;
      a start above the end gives no ports rather than an error. */
  lemma ParsePortsRangeForm(spec: string)
    requires '-' in spec
    ensures var bounds := Split(spec, '-');
      ParsePorts(spec).Ok? <==>
        |bounds| == 2 && ParseInt(bounds[0]).Some? && ParseInt(bounds[1]).Some?
    ensures var bounds := Split(spec, '-');
      ParsePorts(spec).Ok? ==>
        var start, end := ParseInt(bounds[0]).value, ParseInt(bounds[1]).value;
        var ports := ParsePorts(spec).value;
        && |ports| == (if start <= end then end - start + 1 else 0)
        && (forall k :: 0 <= k < |ports| ==> ports[k] == start + k)
  {
  }

  /** No parsed port is negative: every `-` sends the argument to the range form,
      and the range bounds are pieces between the dashes. */
  lemma {:induction false} ParsePortsNonNegative(spec: string)
    ensures ParsePorts(spec).Ok? ==> forall k :: 0 <= k < |ParsePorts(spec).value| ==> ParsePorts(spec).value[k] >= 0
  {
    if '-' in spec {
      var bounds := Split(spec, '-');
      if |bounds| == 2 {
        ParseIntNonNegative(bounds[0]);
        ParseIntNonNegative(bounds[1]);
      }
    } else {
      var tokens := Split(spec, ',');
      SplitKeepsOut(spec, ',', '-');
      forall i | 0 <= i < |tokens|
        ensures ParseInt(tokens[i]).Some? ==> ParseInt(tokens[i]).value >= 0
      {
        ParseIntNonNegative(tokens[i]);
      }
    }
  }

  /** An empty token (`"80,"`, `",80"`, `"80,,443"`) is rejected. */
  lemma ParsePortsRejectsEmptyToken(spec: string)
    requires '-' !in spec && "" in Split(spec, ',')
    ensures ParsePorts(spec).Err?
  {
    var tokens := Split(spec, ',');
    var i :| 0 <= i < |tokens| && tokens[i] == "";
    ParseIntRejectsBlank(tokens[i]);
    assert ParsePorts(spec) == ParseList(tokens);
  }

  /** A missing range bound (`"-80"`, `"80-"`) is rejected. */
  lemma ParsePortsRejectsEmptyBound(spec: string)
    requires '-' in spec && "" in Split(spec, '-')
    ensures ParsePorts(spec).Err?
  {
    ParseIntRejectsBlank("");
  }

  // ---------------------------------------------------------------- round trips

  /** The decimal spelling of each port. */
  function Decimals(ports: seq<nat>): (tokens: seq<string>)
    ensures |tokens| == |ports|
    ensures forall i :: 0 <= i < |ports| ==> tokens[i] == Decimal(ports[i])
  {
    if ports == [] then [] else [Decimal(ports[0])] + Decimals(ports[1..])
  }

  lemma ReadsDecimal(n: nat)
    ensures ParseInt(Decimal(n)) == Some(n)
    ensures ',' !in Decimal(n) && '-' !in Decimal(n)
  {
    DecimalRoundTrip("", n, "");
    assert "" + Decimal(n) + "" == Decimal(n);
  }

  /** Comma-joined tokens without dashes are parsed token by token. */
  lemma ListOfTokens(tokens: seq<string>)
    requires |tokens| >= 1
    requires forall i :: 0 <= i < |tokens| ==> ',' !in tokens[i] && '-' !in tokens[i]
    ensures ParsePorts(Join(tokens, ',')) == ParseList(tokens)
  {
    JoinKeepsOut(tokens, ',', '-');
    JoinSplit(tokens, ',');
  }

  /** Two dash-free tokens joined by one dash are parsed as a range. */
  lemma RangeOfTokens(a: string, b: string)
    requires '-' !in a && '-' !in b
    ensures ParsePorts(a + "-" + b) == ParseRange([a, b])
  {
    var spec := a + "-" + b;
    assert Join([a, b], '-') == spec;
    JoinSplit([a, b], '-');
    assert spec[|a|] == '-';
  }

  /** Writing ports as a comma-separated list and parsing it gives the same ports back. */
  lemma ListRoundTrip(ports: seq<nat>)
    requires |ports| >= 1
    ensures ParsePorts(Join(Decimals(ports), ',')) == Ok(ports)
  {
    var tokens := Decimals(ports);
    forall i | 0 <= i < |tokens|
      ensures ',' !in tokens[i] && '-' !in tokens[i] && ParseInt(tokens[i]) == Some(ports[i])
    {
      ReadsDecimal(ports[i]);
    }
    ListOfTokens(tokens);
    var r := ParseList(tokens);
    assert r.Ok?;
    assert r.value == ports;
  }

  /** Writing `start-end` and parsing it gives every port from start to end inclusive. */
  lemma RangeRoundTrip(start: nat, end: nat)
    ensures ParsePorts(Decimal(start) + "-" + Decimal(end)) == Ok(Seqs.Range(start, end + 1))
  {
    ReadsDecimal(start);
    ReadsDecimal(end);
    RangeOfTokens(Decimal(start), Decimal(end));
    RangeOfIntegers(Decimal(start), Decimal(end), start, end);
  }

  lemma RangeOfIntegers(a: string, b: string, start: int, end: int)
    requires ParseInt(a) == Some(start) && ParseInt(b) == Some(end)
    ensures ParseRange([a, b]) == Ok(Seqs.Range(start, end + 1))
  {
  }

  // ---------------------------------------------------------------- examples

  /** `-p 80,80` scans port 80 twice. */
  lemma ExampleDuplicatesKept()
    ensures ParsePorts("80,80") == Ok([80, 80])
  {
    assert Decimal(80) == "80";
    assert Decimals([80, 80]) == ["80", "80"];
    assert Join(["80", "80"], ',') == "80,80";
    ListRoundTrip([80, 80]);
  }

  /** `-p 80,443,8080` keeps the listed order. */
  lemma ExampleList()
    ensures ParsePorts("80,443,8080") == Ok([80, 443, 8080])
  {
    assert Decimal(80) == "80";
    assert Decimal(443) == "443";
    assert Decimal(8080) == "8080";
    assert Decimals([80, 443, 8080]) == ["80", "443", "8080"];
    assert Join(["80", "443", "8080"], ',') == "80,443,8080";
    ListRoundTrip([80, 443, 8080]);
  }

  lemma ExamplePair()
    ensures ParsePorts("80,22") == Ok([80, 22])
    ensures ParsePortArgument(Some("80,22")) == Ok(Some([80, 22]))
  {
    assert Decimal(80) == "80";
    assert Decimal(22) == "22";
    assert Decimals([80, 22]) == ["80", "22"];
    assert Join(["80", "22"], ',') == "80,22";
    ListRoundTrip([80, 22]);
  }

  /** Port 0 and ports above 65535 are not refused. */
  lemma ExampleNoBoundsCheck()
    ensures ParsePorts("0,70000") == Ok([0, 70000])
  {
    assert Decimal(0) == "0" && Decimal(70000) == "70000";
    assert Decimals([0, 70000]) == ["0", "70000"];
    assert Join(["0", "70000"], ',') == "0,70000";
    ListRoundTrip([0, 70000]);
  }

  /** `-p 20-22` is the inclusive range. */
  lemma ExampleRange()
    ensures ParsePorts("20-22") == Ok([20, 21, 22])
  {
    assert Decimal(20) == "20" && Decimal(22) == "22";
    assert Decimal(20) + "-" + Decimal(22) == "20-22";
    RangeRoundTrip(20, 22);
    assert Seqs.Range(20, 23) == [20, 21, 22];
  }

  /** `-p 80-79` scans nothing; it is not an error. */
  lemma ExampleDescendingRange()
    ensures ParsePorts("80-79") == Ok([])
  {
    assert Decimal(80) + "-" + Decimal(79) == "80-79";
    RangeRoundTrip(80, 79);
  }

  /** `-p 1-2-3` has three range pieces and is rejected. */
  lemma ExampleThreePieces()
    ensures ParsePorts("1-2-3").Err?
  {
    assert Join(["1", "2", "3"], '-') == "1-2-3";
    JoinSplit(["1", "2", "3"], '-');
  }

  /** A trailing comma is rejected. */
  lemma ExampleTrailingComma()
    ensures ParsePorts("80,").Err?
  {
    assert Join(["80", ""], ',') == "80,";
    JoinSplit(["80", ""], ',');
    ParsePortsRejectsEmptyToken("80,");
  }

  /** A missing lower range bound is rejected; a negative port cannot be written. */
  lemma ExampleMissingStart()
    ensures ParsePorts("-80").Err?
  {
    assert Join(["", "80"], '-') == "-80";
    JoinSplit(["", "80"], '-');
    ParsePortsRejectsEmptyBound("-80");
  }

  /** A missing upper range bound is rejected. */
  lemma ExampleMissingEnd()
    ensures ParsePorts("80-").Err?
  {
    assert Join(["80", ""], '-') == "80-";
    JoinSplit(["80", ""], '-');
    ParsePortsRejectsEmptyBound("80-");
  }
}
