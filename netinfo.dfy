/**
 * `netinfo`: one status-bar entry per active network interface, as reported by
 * `ip -j addr`. Loopback, address-less and down interfaces are left out; the
 * address shown is the first IPv4 one, else the first IPv6 one; the entry's symbol
 * is picked by the first letter of the interface name, and wireless interfaces also
 * show their signal strength. Running `ip` and decoding its JSON are left out (the
 * decoded interfaces are passed in), and so is running `iwconfig`: the text its
 * "Signal level=-N dBm" pattern captures for an interface is passed in.
 */
module NetInfo {
  import opened Wrappers
  import opened Text

  /** One `addr_info` entry: its family ("inet", "inet6", ...) and its address. */
  datatype AddrInfo = AddrInfo(family: string, local: string)

  datatype Interface = Interface(ifname: string, addrInfo: seq<AddrInfo>, operstate: string)

  datatype NetworkType = Ethernet | Wlan | Vpn

  /** `iter().find(|addr| addr.family == family)`. */
  function FindFamily(addrs: seq<AddrInfo>, family: string): (r: Option<AddrInfo>)
    ensures r.None? <==> forall i :: 0 <= i < |addrs| ==> addrs[i].family != family
    ensures r.Some? ==> exists i :: (0 <= i < |addrs| && addrs[i] == r.value && r.value.family == family
      && forall j :: 0 <= j < i ==> addrs[j].family != family)
    decreases |addrs|
  {
    if addrs == [] then None
    else if addrs[0].family == family then Some(addrs[0])
    else
      var r := FindFamily(addrs[1..], family);
      assert r.Some? ==> exists i :: (0 <= i < |addrs| && addrs[i] == r.value && r.value.family == family
        && forall j :: 0 <= j < i ==> addrs[j].family != family) by {
        if r.Some? {
          var i :| 0 <= i < |addrs| - 1 && addrs[1..][i] == r.value && r.value.family == family
            && forall j :: 0 <= j < i ==> addrs[1..][j].family != family;
          assert forall j :: 0 <= j < i + 1 ==> addrs[j].family != family by {
            forall j | 0 <= j < i + 1 ensures addrs[j].family != family {
              if j > 0 {
                assert addrs[j] == addrs[1..][j - 1];
              }
            }
          }
        }
      }
      r
  }

  /** The interfaces the loop skips before looking for an address. */
  predicate Skipped(iface: Interface) {
    iface.ifname == "lo" || iface.addrInfo == [] || iface.operstate == "DOWN"
  }

  /** The address shown: the first "inet" entry, else the first "inet6" entry. */
  function Address(iface: Interface): Option<AddrInfo> {
    match FindFamily(iface.addrInfo, "inet")
      case Some(a) => Some(a)
      case None => FindFamily(iface.addrInfo, "inet6")
  }

  /**
   * An IPv6 address is shown only when there is no IPv4 one, and an interface is
   * dropped at this step exactly when it has neither.
   */
  lemma {:induction false} AddressPreference(iface: Interface)
    ensures Address(iface).None? <==> forall i :: 0 <= i < |iface.addrInfo| ==> iface.addrInfo[i].family != "inet" && iface.addrInfo[i].family != "inet6"
    ensures Address(iface).Some? && Address(iface).value.family == "inet6" ==> forall i :: 0 <= i < |iface.addrInfo| ==> iface.addrInfo[i].family != "inet"
    ensures Address(iface).Some? ==> Address(iface).value in iface.addrInfo
    ensures Address(iface).Some? ==> Address(iface).value.family == "inet" || Address(iface).value.family == "inet6"
  {
    var v4 := FindFamily(iface.addrInfo, "inet");
    if v4.None? {
      var v6 := FindFamily(iface.addrInfo, "inet6");
      if v6.Some? {
        assert v6.value.family != "inet" by {
          assert |"inet6"| != |"inet"|;
        }
      }
    }
  }

  /** The network type by the first letter of the interface name. */
  function TypeOf(name: string): (t: NetworkType)
    ensures t == Ethernet <==> name != [] && name[0] == 'e'
    ensures t == Wlan <==> name != [] && name[0] == 'w'
  {
    if StartsWith(name, "e") then Ethernet
    else if StartsWith(name, "w") then Wlan
    else Vpn
  }

  /** The Nerd Font glyph for each network type. */
  function Symbol(t: NetworkType): char {
    match t
      case Ethernet => '\U{F6FF}'
      case Wlan => '\U{F1EB}'
      case Vpn => '\U{E4E2}'
  }

  /** The three network types get three different symbols. */
  lemma {:induction false} SymbolsDistinct(s: NetworkType, t: NetworkType)
    requires s != t
    ensures Symbol(s) != Symbol(t)
  {
    match s {
      case Ethernet =>
      case Wlan =>
      case Vpn =>
    }
  }

  /** The glyph of the strength marker for a signal of `-level` dBm. */
  function LevelGlyph(level: nat): (c: char)
    ensures c == ErrorGlyph <==> level < 20 || level > 90
  {
    if 20 <= level <= 60 then '\U{2587}'
    else if 61 <= level <= 67 then '\U{2585}'
    else if 68 <= level <= 70 then '\U{2583}'
    else if 71 <= level <= 80 then '\U{2581}'
    else if 81 <= level <= 90 then '!'
    else ErrorGlyph
  }

  /** The error marker's glyph, U+274C. */
  const ErrorGlyph: char := '\U{274C}'

  /** How many bars a glyph shows: four for the full block down to none for '!'. */
  function Bars(c: char): nat {
    if c == '\U{2587}' then 4
    else if c == '\U{2585}' then 3
    else if c == '\U{2583}' then 2
    else if c == '\U{2581}' then 1
    else 0
  }

  /**
   * A weaker signal (a larger `level` in `-level` dBm) never shows more bars, and the
   * five ranges from 20 to 90 show five different glyphs.
   */
  lemma {:induction false} StrengthMonotone(a: nat, b: nat)
    requires 20 <= a <= b <= 90
    ensures Bars(LevelGlyph(b)) <= Bars(LevelGlyph(a))
    ensures Bars(LevelGlyph(a)) == Bars(LevelGlyph(b)) ==> LevelGlyph(a) == LevelGlyph(b)
  {
  }

  /**
   * `wifi_strength` after the command and the regular expression: `captured` is the
   * text of the capture group, or `None` when the command failed or nothing matched.
   */
  function WifiStrength(captured: Option<string>): (r: string)
    ensures |r| == 2 && r[0] == ' '
  {
    match captured
      case None => [' ', ErrorGlyph]
      case Some(digits) =>
        match ParseUsize(digits)
          case None => [' ', ErrorGlyph]
          case Some(level) => [' ', LevelGlyph(level)]
  }

  /** A capture that is not a number from 20 to 90 gives the error marker. */
  lemma {:induction false} StrengthError(captured: Option<string>)
    ensures WifiStrength(captured)[1] == ErrorGlyph <==>
      captured.None? || ParseUsize(captured.value).None? || !(20 <= ParseUsize(captured.value).value <= 90)
  {
  }

  /** The strength shown after the symbol: nothing for ethernet and VPN interfaces. */
  function Strength(name: string, signal: string -> Option<string>): string {
    if TypeOf(name) == Wlan then WifiStrength(signal(name)) else ""
  }

  /** The entry `format!("{symbol}{strength} {name}: {ip_addr}")` of a shown interface. */
  function Entry(iface: Interface, signal: string -> Option<string>): Option<string> {
    if Skipped(iface) then None
    else match Address(iface)
      case None => None
      case Some(addr) => Some([Symbol(TypeOf(iface.ifname))] + Strength(iface.ifname, signal) + " " + iface.ifname + ": " + addr.local)
  }

  /** An interface is shown exactly when it is not skipped and has an IPv4 or IPv6 address. */
  lemma {:induction false} EntryShown(iface: Interface, signal: string -> Option<string>)
    ensures Entry(iface, signal).Some? <==> !Skipped(iface) && exists i :: 0 <= i < |iface.addrInfo| && iface.addrInfo[i].family in {"inet", "inet6"}
  {
    AddressPreference(iface);
    if Address(iface).Some? {
      var a := Address(iface).value;
      var i :| 0 <= i < |iface.addrInfo| && iface.addrInfo[i] == a;
      assert iface.addrInfo[i].family in {"inet", "inet6"};
    }
  }

  /**
   * A shown entry starts with the type's symbol; only a wireless interface has a
   * strength marker; and after it come the name and the address.
   */
  lemma {:induction false} EntryShape(iface: Interface, signal: string -> Option<string>)
    requires Entry(iface, signal).Some?
    ensures var e := Entry(iface, signal).value;
      var s := if TypeOf(iface.ifname) == Wlan then 3 else 1;
      e[0] == Symbol(TypeOf(iface.ifname))
      && e[s..] == " " + iface.ifname + ": " + Address(iface).value.local
      && (TypeOf(iface.ifname) == Wlan ==> e[1..3] == WifiStrength(signal(iface.ifname)))
  {
    var strength := Strength(iface.ifname, signal);
    var tail := " " + iface.ifname + ": " + Address(iface).value.local;
    var e := [Symbol(TypeOf(iface.ifname))] + strength + tail;
    assert Entry(iface, signal).value == e;
    assert e[1 + |strength|..] == tail;
    if TypeOf(iface.ifname) == Wlan {
      assert e[1..3] == strength;
    }
  }

  /** The entries of the first `n` interfaces, in order. */
  function EntriesTo(interfaces: seq<Interface>, signal: string -> Option<string>, n: nat): (r: seq<string>)
    requires n <= |interfaces|
    ensures |r| <= n
  {
    if n == 0 then []
    else match Entry(interfaces[n - 1], signal)
      case None => EntriesTo(interfaces, signal, n - 1)
      case Some(e) => EntriesTo(interfaces, signal, n - 1) + [e]
  }

  function Entries(interfaces: seq<Interface>, signal: string -> Option<string>): seq<string> {
    EntriesTo(interfaces, signal, |interfaces|)
  }

  /** Every entry is the entry of one of the interfaces. */
  lemma {:induction false} EntriesFromShown(interfaces: seq<Interface>, signal: string -> Option<string>, n: nat, e: string)
    requires n <= |interfaces| && e in EntriesTo(interfaces, signal, n)
    ensures exists i :: 0 <= i < n && Entry(interfaces[i], signal) == Some(e)
    decreases n
  {
    var prev := EntriesTo(interfaces, signal, n - 1);
    if e in prev {
      EntriesFromShown(interfaces, signal, n - 1, e);
      var i :| 0 <= i < n - 1 && Entry(interfaces[i], signal) == Some(e);
      assert 0 <= i < n && Entry(interfaces[i], signal) == Some(e);
    } else {
      assert Entry(interfaces[n - 1], signal) == Some(e);
    }
  }

  /** Every shown interface contributes its entry. */
  lemma {:induction false} ShownInEntries(interfaces: seq<Interface>, signal: string -> Option<string>, n: nat, i: nat)
    requires i < n <= |interfaces| && Entry(interfaces[i], signal).Some?
    ensures Entry(interfaces[i], signal).value in EntriesTo(interfaces, signal, n)
    decreases n
  {
    if i < n - 1 {
      ShownInEntries(interfaces, signal, n - 1, i);
    }
  }

  /** There are no entries, and "No network" is printed, exactly when no interface is shown. */
  lemma {:induction false} NoEntries(interfaces: seq<Interface>, signal: string -> Option<string>, n: nat)
    requires n <= |interfaces|
    ensures EntriesTo(interfaces, signal, n) == [] <==> forall i :: 0 <= i < n ==> Entry(interfaces[i], signal).None?
    decreases n
  {
    if n > 0 {
      NoEntries(interfaces, signal, n - 1);
    }
  }

  /** The line printed: the entries joined with ", ", or "No network" when there are none. */
  function Output(entries: seq<string>): string {
    if entries == [] then "No network" else Join(entries, ", ")
  }

  /** The body of the loop in `main`: the entry of one interface, or `None` where the loop continues. */
  method EntryOf(iface: Interface, signal: string -> Option<string>) returns (entry: Option<string>)
    ensures entry == Entry(iface, signal)
  {
    if iface.ifname == "lo" {
      return None;
    }
    if iface.addrInfo == [] || iface.operstate == "DOWN" {
      return None;
    }
    var addr := FindFamily(iface.addrInfo, "inet");
    if addr.None? {
      addr := FindFamily(iface.addrInfo, "inet6");
      if addr.None? {
        return None;
      }
    }
    var name := iface.ifname;
    var networkType := if StartsWith(name, "e") then Ethernet else if StartsWith(name, "w") then Wlan else Vpn;
    var strength := if networkType == Wlan then WifiStrength(signal(name)) else "";
    entry := Some([Symbol(networkType)] + strength + " " + name + ": " + addr.value.local);
  }

  /** `main` after decoding: the loop pushing one entry per shown interface, then the line printed. */
  method Run(interfaces: seq<Interface>, signal: string -> Option<string>) returns (line: string)
    ensures line == Output(Entries(interfaces, signal))
  {
    var output: seq<string> := [];
    for k := 0 to |interfaces|
      invariant output == EntriesTo(interfaces, signal, k)
    {
      var entry := EntryOf(interfaces[k], signal);
      if entry.Some? {
        output := output + [entry.value];
      }
    }
    if output == [] {
      line := "No network";
    } else {
      line := Join(output, ", ");
    }
  }
}
