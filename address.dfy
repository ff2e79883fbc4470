/** lib/address.js: derive a companion endpoint by shifting the port. */
module Address {
  import opened Text

  /** `parts[i]` as `util.format('%s', …)` prints it: a missing part prints as "undefined". */
  function Field(parts: seq<string>, i: nat): string {
    if i < |parts| then parts[i] else "undefined"
  }

  /** The port field of the result: the decimal of the parsed port plus `diff`. */
  function ShiftedPort(address: string, diff: int): string {
    NumText(Add(ParseInt(Field(Split(address, ':'), 2)), diff))
  }

  /**
   * `get(address, diff)`: split on ':', keep the first two fields, parse the
   * third as a decimal integer and add `diff`; any further fields are dropped.
   */
  function GetAddress(address: string, diff: int): string {
    var parts := Split(address, ':');
    Field(parts, 0) + ":" + Field(parts, 1) + ":" + ShiftedPort(address, diff)
  }

  /** An address written out from three fields that contain no ':'. */
  function Endpoint(protocol: string, host: string, port: int): string {
    protocol + ":" + host + ":" + IntText(port)
  }

  lemma NoColonInNumText(x: Num)
    ensures ':' !in NumText(x)
  {
    if ':' in NumText(x) {
      NumTextChars(x, ':');
    }
  }

  lemma JoinThree(a: string, b: string, c: string)
    ensures Join([a, b, c], ':') == a + ":" + b + ":" + c
  {
    assert [a, b, c][1..] == [b, c];
    assert [b, c][1..] == [c];
    assert Join([b, c], ':') == b + [':'] + c;
    assert Join([a, b, c], ':') == a + [':'] + (b + [':'] + c);
  }

  lemma NoColonInUndefined()
    ensures ':' !in "undefined"
  {
  }

  /**
   * Whatever the input, the result splits into exactly three fields: the
   * input's first two fields unchanged and the shifted port.
   */
  lemma GetAddressFields(address: string, diff: int)
    ensures var parts := Split(address, ':');
      Split(GetAddress(address, diff), ':') ==
        [Field(parts, 0), Field(parts, 1), ShiftedPort(address, diff)]
  {
    var parts := Split(address, ':');
    var protocol, host, port := Field(parts, 0), Field(parts, 1), ShiftedPort(address, diff);
    var fields := [protocol, host, port];
    NoColonInUndefined();
    assert ':' !in protocol && ':' !in host;
    NoColonInNumText(Add(ParseInt(Field(parts, 2)), diff));
    var r := GetAddress(address, diff);
    assert r == protocol + ":" + host + ":" + port;
    JoinThree(protocol, host, port);
    assert forall i :: 0 <= i < 3 ==> ':' !in fields[i];
    SplitJoin(fields, ':');
  }

  /** A three-field address with a canonical decimal port: only the port moves, by `diff`. */
  lemma ShiftPort(protocol: string, host: string, port: int, diff: int)
    requires ':' !in protocol && ':' !in host
    ensures GetAddress(Endpoint(protocol, host, port), diff) == Endpoint(protocol, host, port + diff)
  {
    var parts := [protocol, host, IntText(port)];
    FieldsOfEndpoint(protocol, host, port);
    ParseIntText(port);
    GetAddressOfFields(Endpoint(protocol, host, port), parts, diff);
  }

  lemma FieldsOfEndpoint(protocol: string, host: string, port: int)
    requires ':' !in protocol && ':' !in host
    ensures Split(Endpoint(protocol, host, port), ':') == [protocol, host, IntText(port)]
  {
    NoColonInNumText(Int(port));
    JoinThree(protocol, host, IntText(port));
    SplitJoin([protocol, host, IntText(port)], ':');
  }

  lemma GetAddressOfFields(address: string, parts: seq<string>, diff: int)
    requires Split(address, ':') == parts && |parts| >= 3
    ensures GetAddress(address, diff) == parts[0] + ":" + parts[1] + ":" + NumText(Add(ParseInt(parts[2]), diff))
  {
  }

  /**
   * For every input, shifting by `diff` and then by `-diff` is shifting by 0:
   * the first two fields, and the port as it parses (NaN included).
   */
  lemma ShiftThereAndBack(address: string, diff: int)
    ensures GetAddress(GetAddress(address, diff), -diff) == GetAddress(address, 0)
  {
    var parts := Split(address, ':');
    var there := GetAddress(address, diff);
    GetAddressFields(address, diff);
    GetAddressOfFields(there, Split(there, ':'), -diff);
    ParseNumText(Add(ParseInt(Field(parts, 2)), diff));
    assert Add(Add(ParseInt(Field(parts, 2)), diff), -diff) == Add(ParseInt(Field(parts, 2)), 0);
  }

  /** A canonical address: one that shifting by 0 leaves as it is. */
  predicate Canonical(address: string) {
    GetAddress(address, 0) == address
  }

  /** A canonical address shifted by `diff` and then by `-diff` is given back. */
  lemma ShiftBack(address: string, diff: int)
    requires Canonical(address)
    ensures GetAddress(GetAddress(address, diff), -diff) == address
  {
    ShiftThereAndBack(address, diff);
  }

  /** Three fields without ':' around a decimal port make a canonical address. */
  lemma EndpointCanonical(protocol: string, host: string, port: int)
    requires ':' !in protocol && ':' !in host
    ensures Canonical(Endpoint(protocol, host, port))
  {
    ShiftPort(protocol, host, port, 0);
  }

  /** Fields after the third do not reach the result. */
  lemma ExtraFieldsDropped(protocol: string, host: string, port: string, rest: string, diff: int)
    requires ':' !in protocol && ':' !in host && ':' !in port
    ensures GetAddress(protocol + ":" + host + ":" + port + ":" + rest, diff) ==
            GetAddress(protocol + ":" + host + ":" + port, diff)
  {
    var long := protocol + ":" + host + ":" + port + ":" + rest;
    assert long == protocol + [':'] + (host + [':'] + (port + [':'] + rest));
    SplitField(protocol, ':', host + [':'] + (port + [':'] + rest));
    SplitField(host, ':', port + [':'] + rest);
    SplitField(port, ':', rest);
    JoinThree(protocol, host, port);
    SplitJoin([protocol, host, port], ':');
  }

  lemma PortTexts()
    ensures IntText(5556) == "5556" && IntText(5557) == "5557" && IntText(5558) == "5558"
  {
    assert NatDigits(5) == "5";
    assert NatDigits(55) == "55";
    assert NatDigits(555) == "555";
  }

  lemma DefaultEndpointTexts()
    ensures Endpoint("tcp", "//127.0.0.1", 5556) == "tcp://127.0.0.1:5556"
    ensures Endpoint("tcp", "//127.0.0.1", 5557) == "tcp://127.0.0.1:5557"
    ensures Endpoint("tcp", "//127.0.0.1", 5558) == "tcp://127.0.0.1:5558"
  {
    PortTexts();
  }

  /** The endpoint with port 5557, shifted up and down by one. */
  lemma DefaultEndpoints()
    ensures GetAddress("tcp://127.0.0.1:5557", 1) == "tcp://127.0.0.1:5558"
    ensures GetAddress("tcp://127.0.0.1:5557", -1) == "tcp://127.0.0.1:5556"
  {
    DefaultEndpointTexts();
    ShiftPort("tcp", "//127.0.0.1", 5557, 1);
    ShiftPort("tcp", "//127.0.0.1", 5557, -1);
  }
}
