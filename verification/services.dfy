/**
 * The scanner's table of well-known ports (simple_network_scanner.py, lines 19-39)
 * and the lookup `self.common_ports.get(port, "Unknown")` (line 65).
 * The table is a Python dict: an association list in insertion order whose keys
 * are distinct. It is a constant here, which is what the source does with it:
 * written once and only read afterwards.
 */
module Services {
  import Seqs

  const Unknown := "Unknown"

  const CommonPorts: seq<(int, string)> := [
    (21, "FTP"),
    (22, "SSH"),
    (23, "Telnet"),
    (25, "SMTP"),
    (53, "DNS"),
    (80, "HTTP"),
    (110, "POP3"),
    (143, "IMAP"),
    (443, "HTTPS"),
    (993, "IMAPS"),
    (995, "POP3S"),
    (1433, "MSSQL"),
    (3306, "MySQL"),
    (3389, "RDP"),
    (5432, "PostgreSQL"),
    (5900, "VNC"),
    (6379, "Redis"),
    (8080, "HTTP-Proxy"),
    (8443, "HTTPS-Alt")
  ]

  /** `list(table.keys())`: the keys in insertion order. */
  function Keys(table: seq<(int, string)>): seq<int>
  {
    seq(|table|, i requires 0 <= i < |table| => table[i].0)
  }

  /** `table.get(key, default)`. */
  function Get(table: seq<(int, string)>, key: int, default: string): string
  {
    if table == [] then default
    else if table[0].0 == key then table[0].1
    else Get(table[1..], key, default)
  }

  /** A listed key maps to the name it is listed with. */
  lemma {:induction false} GetListed(table: seq<(int, string)>, i: nat, default: string)
    requires Seqs.AllDistinct(Keys(table)) && i < |table|
    ensures Get(table, table[i].0, default) == table[i].1
  {
    if i > 0 {
      assert Keys(table)[0] != Keys(table)[i];
      var rest := table[1..];
      assert Keys(rest) == Keys(table)[1..];
      GetListed(rest, i - 1, default);
    }
  }

  /** A key that is not listed maps to the default. */
  lemma {:induction false} GetUnlisted(table: seq<(int, string)>, key: int, default: string)
    requires key !in Keys(table)
    ensures Get(table, key, default) == default
  {
    if table != [] {
      assert Keys(table)[0] == table[0].0;
      assert Keys(table[1..]) == Keys(table)[1..];
      GetUnlisted(table[1..], key, default);
    }
  }

  /** The service name reported for an open port. */
  function ServiceName(port: int): string
  {
    Get(CommonPorts, port, Unknown)
  }

  /** The ports scanned when none are given: the table's keys in the order written. */
  function DefaultPorts(): seq<int>
  {
    Keys(CommonPorts)
  }

  /** Each entry's key is smaller than the next entry's. */
  ghost predicate AscendingKeys(table: seq<(int, string)>)
  {
    forall i :: 0 < i < |table| ==> table[i - 1].0 < table[i].0
  }

  /** Keys that ascend from entry to entry are distinct. */
  lemma {:induction false} AscendingKeysDistinct(table: seq<(int, string)>)
    requires AscendingKeys(table)
    ensures forall i, j :: 0 <= i < j < |table| ==> table[i].0 < table[j].0
    ensures Seqs.AllDistinct(Keys(table))
  {
    if |table| > 1 {
      var init := table[..|table| - 1];
      assert AscendingKeys(init) by {
        forall i | 0 < i < |init| ensures init[i - 1].0 < init[i].0 {
          assert init[i - 1] == table[i - 1] && init[i] == table[i];
        }
      }
      AscendingKeysDistinct(init);
      forall i, j | 0 <= i < j < |table| ensures table[i].0 < table[j].0 {
        if j < |table| - 1 {
          assert table[i] == init[i] && table[j] == init[j];
        } else if i < j - 1 {
          assert table[i] == init[i] && table[j - 1] == init[j - 1];
        }
      }
    }
  }

  /** The table as written: 19 entries, keys ascending, no name is "Unknown". */
  lemma CommonPortsShape()
    ensures |CommonPorts| == 19
    ensures AscendingKeys(CommonPorts)
    ensures forall i :: 0 <= i < |CommonPorts| ==> CommonPorts[i].1 != Unknown
  {
  }

  /** Nineteen distinct ports, in the table's order, each with a name of its own. */
  lemma DefaultPortsShape()
    ensures |DefaultPorts()| == 19
    ensures Seqs.AllDistinct(DefaultPorts())
    ensures forall i :: 0 <= i < 19 ==> DefaultPorts()[i] == CommonPorts[i].0 && CommonPorts[i].1 != Unknown
  {
    CommonPortsShape();
    AscendingKeysDistinct(CommonPorts);
  }

  /** A port in the table is reported under its listed name. */
  lemma ServiceNameListed(i: nat)
    requires i < |CommonPorts|
    ensures ServiceName(CommonPorts[i].0) == CommonPorts[i].1
  {
    DefaultPortsShape();
    GetListed(CommonPorts, i, Unknown);
  }

  /** Every other port is reported as "Unknown". */
  lemma ServiceNameUnlisted(port: int)
    requires port !in DefaultPorts()
    ensures ServiceName(port) == Unknown
  {
    GetUnlisted(CommonPorts, port, Unknown);
  }

  /** A port is reported as "Unknown" exactly when it is not in the table. */
  lemma ServiceNameKnownIff(port: int)
    ensures ServiceName(port) != Unknown <==> port in DefaultPorts()
  {
    if port in DefaultPorts() {
      var i :| 0 <= i < |DefaultPorts()| && DefaultPorts()[i] == port;
      ServiceNameListed(i);
      DefaultPortsShape();
    } else {
      ServiceNameUnlisted(port);
    }
  }

  lemma ExampleListedLookups()
    ensures ServiceName(80) == "HTTP" && ServiceName(22) == "SSH" && ServiceName(8443) == "HTTPS-Alt"
  {
    ServiceNameListed(5);
    ServiceNameListed(1);
    ServiceNameListed(18);
  }

  /** In a table with ascending keys, a key strictly between two neighbours is not listed. */
  lemma BetweenNeighboursUnlisted(table: seq<(int, string)>, i: nat, key: int)
    requires AscendingKeys(table) && 0 < i < |table|
    requires table[i - 1].0 < key < table[i].0
    ensures key !in Keys(table)
  {
    AscendingKeysDistinct(table);
    forall j | 0 <= j < |table| ensures Keys(table)[j] != key {
      if j < i - 1 {
        assert table[j].0 < table[i - 1].0;
      } else if j > i {
        assert table[i].0 < table[j].0;
      }
    }
  }

  /** The ports strictly between the proxy ports 8080 and 8443 are all reported as "Unknown". */
  lemma UnlistedBetweenProxyPorts(port: int)
    requires 8080 < port < 8443
    ensures ServiceName(port) == Unknown
  {
    CommonPortsShape();
    assert CommonPorts[17].0 == 8080 && CommonPorts[18].0 == 8443;
    BetweenNeighboursUnlisted(CommonPorts, 18, port);
    ServiceNameUnlisted(port);
  }
}
