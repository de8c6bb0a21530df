/** Rendering a new server configuration, piece by piece. */
module ServerRender {
  import opened Text
  import opened ConfigSyntax
  import opened ConfigPeers
  import opened ManagedConfig
  import opened DocumentEditor

  /** The addresses printed so far, with the rest behind them. */
  function Behind(done: seq<string>, rest: Option<seq<string>>): Option<seq<string>> {
    match rest case Some(more) => Some(done + more) case None => None
  }

  method PrintAddresses(address: AddressPrinter, values: seq<string>) returns (printed: Option<seq<string>>)
    ensures printed == Printed(address, values)
  {
    var addresses: seq<string> := [];
    var i := 0;
    assert values[0..] == values;
    BehindNothing(Printed(address, values));
    while i < |values|
      invariant i <= |values|
      invariant Printed(address, values) ==
                Behind(addresses, Printed(address, values[i..]))
    {
      var next := address(Trim(values[i]));
      if next.None? {
        return None;
      }
      PrintedStep(address, values[i..], addresses, next.value);
      assert values[i..][1..] == values[i + 1..];
      addresses := addresses + [next.value];
      i := i + 1;
    }
    assert addresses + [] == addresses;
    return Some(addresses);
  }

  lemma BehindNothing(rest: Option<seq<string>>)
    ensures Behind([], rest) == rest
  {
    if rest.Some? {
      assert [] + rest.value == rest.value;
    }
  }

  lemma PrintedStep(address: AddressPrinter, values: seq<string>, done: seq<string>, first: string)
    requires values != [] && address(Trim(values[0])) == Some(first)
    ensures Behind(done, Printed(address, values)) == Behind(done + [first], Printed(address, values[1..]))
  {
    if Printed(address, values[1..]).Some? {
      Associate(done, [first], Printed(address, values[1..]).value);
    }
  }

  method Render(x: Syntax, address: AddressPrinter, config: ServerConfig) returns (output: Option<string>)
    ensures output == RenderServerConfig(x, address, config)
  {
    if Trim(config.operationId) == "" || !NoBreak(config.operationId) {
      return None;
    }
    var privateKey := Trim(config.privateKey);
    if !x.validKey(privateKey) || config.listenPort == 0 || config.addresses == [] {
      return None;
    }
    var addresses := PrintAddresses(address, config.addresses);
    if addresses.None? {
      return None;
    }
    if !NoBreak(config.postUp) || !NoBreak(config.postDown) || (config.postUp == "") != (config.postDown == "") {
      return None;
    }
    var text := WriteServer(config, privateKey, Join(addresses.value), Digits(config.listenPort));
    ServerText(config, addresses.value);
    return Some(text);
  }

  /** The same text, with the two opening lines put together first. */
  function Opened(config: ServerConfig): string {
    "# WireGate-Operation: " + config.operationId + "\n" + "[Interface]\n"
  }

  method WriteServer(config: ServerConfig, key: string, addresses: string, port: string) returns (text: string)
    ensures text == Opened(config) + Concat(InterfaceLines(config, key, addresses, port))
  {
    var hooks := config.postUp != "";
    text := "# WireGate-Operation: " + config.operationId + "\n" + "[Interface]\n";
    ConcatOne(text);
    ghost var head := [text];
    ghost var a, b := LineIf(true, "PrivateKey", key, "\n"), LineIf(true, "Address", addresses, "\n");
    ghost var c := LineIf(true, "ListenPort", port, "\n");
    ghost var d, e := LineIf(hooks, "PostUp", config.postUp, "\n"), LineIf(hooks, "PostDown", config.postDown, "\n");
    SixRuns(head, a, b, c, d, e);
    ConcatAppend(head, InterfaceLines(config, key, addresses, port));
    text := WriteIf(text, true, "PrivateKey", key, "\n");
    text := WriteIf(text, true, "Address", addresses, "\n");
    text := WriteIf(text, true, "ListenPort", port, "\n");
    text := WriteIf(text, hooks, "PostUp", config.postUp, "\n");
    text := WriteIf(text, hooks, "PostDown", config.postDown, "\n");
  }

  lemma ServerText(config: ServerConfig, addresses: seq<string>)
    ensures Concat(ServerLines(config, addresses)) ==
            Opened(config)
            + Concat(InterfaceLines(config, Trim(config.privateKey), Join(addresses), Digits(config.listenPort)))
  {
    var first, second := "# WireGate-Operation: " + config.operationId + "\n", "[Interface]\n";
    var rest := InterfaceLines(config, Trim(config.privateKey), Join(addresses), Digits(config.listenPort));
    ConcatAppend([first, second], rest);
    assert [first, second] == [first] + [second];
    ConcatAppend([first], [second]);
    ConcatOne(first);
    ConcatOne(second);
  }
}
