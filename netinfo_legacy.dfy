/**
 * The older `netinfo`: the same interface and address selection, a symbol by the
 * first letter of the interface name, and no signal strength. Its three symbol
 * literals hold, character for character, the UTF-8 bytes of the glyphs U+F6FF,
 * U+F1EB and U+1F5A7 read as Windows-1252 text; the model keeps those characters.
 */
module NetInfoLegacy {
  import opened Wrappers
  import opened Text
  import NetInfo

  /** The symbol for an interface name. */
  function LegacySymbol(name: string): string {
    if StartsWith(name, "e") then "\U{EF}\U{203A}\U{BF}"
    else if StartsWith(name, "w") then "\U{EF}\U{2021}\U{AB}"
    else "\U{F0}\U{178}\U{2013}\U{A7}"
  }

  /** Ethernet, wireless and other interfaces get three different symbols. */
  lemma {:induction false} LegacySymbolsDistinct(a: string, b: string)
    requires NetInfo.TypeOf(a) != NetInfo.TypeOf(b)
    ensures LegacySymbol(a) != LegacySymbol(b)
  {
    assert LegacySymbol(a)[1] != LegacySymbol(b)[1];
  }

  /** The entry `format!("{symbol} {name}: {ip_addr}")` of a shown interface. */
  function LegacyEntry(iface: NetInfo.Interface): Option<string> {
    if NetInfo.Skipped(iface) then None
    else match NetInfo.Address(iface)
      case None => None
      case Some(addr) => Some(LegacySymbol(iface.ifname) + " " + iface.ifname + ": " + addr.local)
  }

  /** Both versions show the same interfaces with the same address. */
  lemma {:induction false} SameInterfaceShown(iface: NetInfo.Interface, signal: string -> Option<string>)
    ensures LegacyEntry(iface).Some? <==> NetInfo.Entry(iface, signal).Some?
    ensures LegacyEntry(iface).Some? ==> exists k :: (0 <= k <= |LegacyEntry(iface).value|
      && LegacyEntry(iface).value[k..] == " " + iface.ifname + ": " + NetInfo.Address(iface).value.local)
  {
    if LegacyEntry(iface).Some? {
      var symbol := LegacySymbol(iface.ifname);
      var tail := " " + iface.ifname + ": " + NetInfo.Address(iface).value.local;
      assert LegacyEntry(iface).value == symbol + tail;
      assert (symbol + tail)[|symbol|..] == tail;
    }
  }

  function LegacyEntriesTo(interfaces: seq<NetInfo.Interface>, n: nat): (r: seq<string>)
    requires n <= |interfaces|
    ensures |r| <= n
  {
    if n == 0 then []
    else match LegacyEntry(interfaces[n - 1])
      case None => LegacyEntriesTo(interfaces, n - 1)
      case Some(e) => LegacyEntriesTo(interfaces, n - 1) + [e]
  }

  /** Both versions print as many entries, so "No network" in one iff in the other. */
  lemma {:induction false} SameEntryCount(interfaces: seq<NetInfo.Interface>, signal: string -> Option<string>, n: nat)
    requires n <= |interfaces|
    ensures |LegacyEntriesTo(interfaces, n)| == |NetInfo.EntriesTo(interfaces, signal, n)|
    decreases n
  {
    if n > 0 {
      SameEntryCount(interfaces, signal, n - 1);
      SameInterfaceShown(interfaces[n - 1], signal);
    }
  }

  /** The body of the loop in `main`. */
  method LegacyEntryOf(iface: NetInfo.Interface) returns (entry: Option<string>)
    ensures entry == LegacyEntry(iface)
  {
    if iface.ifname == "lo" {
      return None;
    }
    if iface.addrInfo == [] || iface.operstate == "DOWN" {
      return None;
    }
    var addr := NetInfo.FindFamily(iface.addrInfo, "inet");
    if addr.None? {
      addr := NetInfo.FindFamily(iface.addrInfo, "inet6");
      if addr.None? {
        return None;
      }
    }
    var name := iface.ifname;
    var symbol := if StartsWith(name, "e") then "\U{EF}\U{203A}\U{BF}"
      else if StartsWith(name, "w") then "\U{EF}\U{2021}\U{AB}"
      else "\U{F0}\U{178}\U{2013}\U{A7}";
    entry := Some(symbol + " " + name + ": " + addr.value.local);
  }

  /** `main` after decoding: one entry per shown interface, joined with ", ", or "No network". */
  method LegacyRun(interfaces: seq<NetInfo.Interface>) returns (line: string)
    ensures line == NetInfo.Output(LegacyEntriesTo(interfaces, |interfaces|))
  {
    var output: seq<string> := [];
    for k := 0 to |interfaces|
      invariant output == LegacyEntriesTo(interfaces, k)
    {
      var entry := LegacyEntryOf(interfaces[k]);
      if entry.Some? {
        output := output + [entry.value];
      }
    }
    if output == [] {
      line := "No network";
    } else {
      line := Join(output, ", ");
    }
  }
}
