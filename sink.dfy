/**
 * Choosing audio sinks: which nodes count as usable sinks, whether a node's jack is
 * unplugged, the ids of the running sink inputs, and the neighbour of the current sink.
 */
module Sink {
  import opened Wrappers
  import opened Text
  import opened Pipewire
  import Sorting
  import Rings

  /** Sinks left out by their description: the S/PDIF output. */
  const IgnoredSinks: seq<string> := ["USB Audio S/PDIF Output"]

  /** A profile or route belongs to the node when its description matches, or its name is "output:" and the node's profile name. */
  predicate ProfileMatches(p: Profile, description: string, name: string) {
    p.description == description || p.name == "output:" + name
  }

  /** The first entry of `ps` that belongs to the node. */
  function FirstMatching(ps: seq<Profile>, description: string, name: string): (r: Option<nat>)
    ensures r.Some? ==> r.value < |ps| && ProfileMatches(ps[r.value], description, name)
    ensures r.Some? ==> forall j :: 0 <= j < r.value ==> !ProfileMatches(ps[j], description, name)
    ensures r.None? ==> forall j :: 0 <= j < |ps| ==> !ProfileMatches(ps[j], description, name)
    decreases |ps|
  {
    if ps == [] then None
    else if ProfileMatches(ps[0], description, name) then Some(0)
    else
      var rest := FirstMatching(ps[1..], description, name);
      if rest.Some? then Some(rest.value + 1) else None
  }

  /** The first device with the given id. */
  function FindDevice(devices: seq<Device>, id: nat): (r: Option<nat>)
    ensures r.Some? ==> r.value < |devices| && devices[r.value].id == id
    ensures r.Some? ==> forall j :: 0 <= j < r.value ==> devices[j].id != id
    ensures r.None? ==> forall j :: 0 <= j < |devices| ==> devices[j].id != id
    decreases |devices|
  {
    if devices == [] then None
    else if devices[0].id == id then Some(0)
    else
      var rest := FindDevice(devices[1..], id);
      if rest.Some? then Some(rest.value + 1) else None
  }

  /**
   * The node is known to be unplugged: its device's first matching profile, or, when
   * no profile matches, its first matching route, is unavailable. Every missing piece
   * of information answers "plugged in".
   */
  predicate NotPluggedIn(node: Node, devices: seq<Device>) {
    var props := node.props;
    if props.profileDescription.None? || props.profileName.None? then false
    else
      var d := FindDevice(devices, props.deviceId);
      if d.None? then false
      else
        var device := devices[d.value];
        var description, name := props.profileDescription.value, props.profileName.value;
        var p := FirstMatching(device.profiles, description, name);
        if p.Some? then device.profiles[p.value].available == "no"
        else
          var q := FirstMatching(device.routes, description, name);
          q.Some? && device.routes[q.value].available == "no"
  }

  /** `is_not_plugged_in`: a search over the device list, then its profiles, then its routes. */
  method IsNotPluggedIn(node: Node, devices: seq<Device>) returns (r: bool)
    ensures r == NotPluggedIn(node, devices)
  {
    var props := node.props;
    if props.profileDescription.None? || props.profileName.None? {
      return false;
    }
    var description, name := props.profileDescription.value, props.profileName.value;
    var d := 0;
    while d < |devices| && devices[d].id != props.deviceId
      invariant 0 <= d <= |devices|
      invariant forall j :: 0 <= j < d ==> devices[j].id != props.deviceId
    {
      d := d + 1;
    }
    if d == |devices| {
      return false;
    }
    assert FindDevice(devices, props.deviceId) == Some(d);
    var device := devices[d];
    var i := 0;
    while i < |device.profiles|
      invariant 0 <= i <= |device.profiles|
      invariant forall j :: 0 <= j < i ==> !ProfileMatches(device.profiles[j], description, name)
    {
      if ProfileMatches(device.profiles[i], description, name) {
        assert FirstMatching(device.profiles, description, name) == Some(i);
        return device.profiles[i].available == "no";
      }
      i := i + 1;
    }
    i := 0;
    while i < |device.routes|
      invariant 0 <= i <= |device.routes|
      invariant forall j :: 0 <= j < i ==> !ProfileMatches(device.routes[j], description, name)
    {
      if ProfileMatches(device.routes[i], description, name) {
        assert FirstMatching(device.routes, description, name) == Some(i);
        return device.routes[i].available == "no";
      }
      i := i + 1;
    }
    return false;
  }

  /** Without profile information, or without its device, a node never counts as unplugged. */
  lemma {:induction false} MissingInformationMeansPlugged(node: Node, devices: seq<Device>)
    requires
      || node.props.profileDescription.None?
      || node.props.profileName.None?
      || forall j :: 0 <= j < |devices| ==> devices[j].id != node.props.deviceId
    ensures !NotPluggedIn(node, devices)
  {
  }

  /**
   * When a profile of the node's device matches, the routes are not consulted:
   * changing them changes nothing.
   */
  lemma {:induction false} ProfileDecidesBeforeRoutes(node: Node, devices: seq<Device>, k: nat, routes: seq<Profile>)
    requires k < |devices| && FindDevice(devices, node.props.deviceId) == Some(k)
    requires node.props.profileDescription.Some? && node.props.profileName.Some?
    requires exists j :: 0 <= j < |devices[k].profiles| && ProfileMatches(devices[k].profiles[j], node.props.profileDescription.value, node.props.profileName.value)
    ensures NotPluggedIn(node, devices) == NotPluggedIn(node, devices[k := devices[k].(routes := routes)])
  {
    var devices' := devices[k := devices[k].(routes := routes)];
    assert forall j :: 0 <= j < |devices| ==> devices'[j].id == devices[j].id;
    assert FindDevice(devices', node.props.deviceId) == Some(k);
  }

  /** The nodes `get_sinks` keeps. */
  predicate IsSink(node: Node, devices: seq<Device>) {
    && node.props.mediaClass == "Audio/Sink"
    && node.props.nodeDescription !in IgnoredSinks
    && !NotPluggedIn(node, devices)
  }

  function Sinks(nodes: seq<Node>, devices: seq<Device>): seq<Node> {
    Sorting.Filter(nodes, (n: Node) => IsSink(n, devices))
  }

  /** The filter loop of `get_sinks` over the parsed nodes and devices. */
  method GetSinks(nodes: seq<Node>, devices: seq<Device>) returns (valid: seq<Node>)
    ensures valid == Sinks(nodes, devices)
  {
    valid := [];
    var i := 0;
    while i < |nodes|
      invariant 0 <= i <= |nodes|
      invariant valid == Sinks(nodes[..i], devices)
    {
      var node := nodes[i];
      assert nodes[..i + 1][..i] == nodes[..i];
      if node.props.mediaClass != "Audio/Sink" {
        i := i + 1;
        continue;
      }
      if node.props.nodeDescription in IgnoredSinks {
        i := i + 1;
        continue;
      }
      var unplugged := IsNotPluggedIn(node, devices);
      if unplugged {
        i := i + 1;
        continue;
      }
      valid := valid + [node];
      i := i + 1;
    }
    assert nodes[..i] == nodes;
  }

  /** A node is a kept sink exactly when it is among the nodes and passes all three tests. */
  lemma {:induction false} SinksAreTheKeptNodes(nodes: seq<Node>, devices: seq<Device>, node: Node)
    ensures node in Sinks(nodes, devices) <==> node in nodes && IsSink(node, devices)
  {
    var p := (n: Node) => IsSink(n, devices);
    Sorting.FilterSpec(nodes, p);
    if node in nodes && IsSink(node, devices) {
      var i :| 0 <= i < |nodes| && nodes[i] == node;
      assert p(nodes[i]);
    }
    if node in Sinks(nodes, devices) {
      var i :| 0 <= i < |Sinks(nodes, devices)| && Sinks(nodes, devices)[i] == node;
      assert p(Sinks(nodes, devices)[i]);
    }
  }

  /** The sink-input id on one line of `pactl list short sink-inputs`: its first tab-separated field. */
  function FirstField(line: string): string {
    Split(line, '\t')[0]
  }

  /** The ids of the sink inputs: the first field of every non-blank line, in order. */
  function InputIds(output: string): (ids: seq<string>)
    ensures |ids| == |Sorting.Filter(Split(output, '\n'), NotBlank)|
    ensures forall i :: 0 <= i < |ids| ==> '\t' !in ids[i] && '\n' !in ids[i]
  {
    var lines := Sorting.Filter(Split(output, '\n'), NotBlank);
    Sorting.FilterSpec(Split(output, '\n'), NotBlank);
    seq(|lines|, i requires 0 <= i < |lines| => FirstField(lines[i]))
  }

  /** The id is where its line starts. */
  lemma {:induction false} FirstFieldIsPrefix(line: string)
    ensures StartsWith(line, FirstField(line))
    ensures FirstField(line) == line || line[|FirstField(line)|] == '\t'
  {
    if '\t' in line {
      var i := IndexOf(line, '\t');
      assert Split(line, '\t') == [line[..i]] + Split(line[i + 1..], '\t');
    }
  }

  datatype Direction = Next | Previous

  /**
   * The sink `rotate_sink` moves to: the ring neighbour, in the chosen direction, of
   * the first sink whose node name is the default sink's.
   */
  function Rotation(nodes: seq<Node>, current: string, direction: Direction): (r: Result<Node, string>)
    ensures r.Ok? ==> r.value in nodes
  {
    if |nodes| == 0 then Err("Ring cannot work with an empty Vec")
    else
      var found := Rings.FirstIndex(nodes, (i: nat, n: Node) => n.props.nodeName == current);
      if found.None? then Err("Failed to determine current sink")
      else if direction == Next then Ok(nodes[Rings.NextIndex(found.value, |nodes|)])
      else Ok(nodes[Rings.PrevIndex(found.value, |nodes|)])
  }

  /**
   * `rotate_sink` on the sinks and the printed default sink: puts the sinks in a ring,
   * moves the ring to the default sink and steps once.
   */
  method RotateSink(sinks: seq<Node>, defaultSinkOutput: string, direction: Direction) returns (r: Result<Node, string>)
    ensures r == Rotation(sinks, Trim(defaultSinkOutput), direction)
  {
    var current := Trim(defaultSinkOutput);
    var created := Rings.NewRing(sinks);
    if created.Err? {
      return Err(created.error);
    }
    var ring := created.value;
    var found := ring.Find((i: nat, n: Node) => n.props.nodeName == current);
    if found.None? {
      return Err("Failed to determine current sink");
    }
    var node: Node;
    if direction == Next {
      node := ring.Next();
    } else {
      node := ring.Prev();
    }
    return Ok(node);
  }

  /**
   * With distinct node names, rotating forward and then back from the sink reached
   * returns to the default sink.
   */
  lemma {:induction false} RotateBack(nodes: seq<Node>, current: string)
    requires forall i, j :: 0 <= i < j < |nodes| ==> nodes[i].props.nodeName != nodes[j].props.nodeName
    requires Rotation(nodes, current, Next).Ok?
    ensures var back := Rotation(nodes, Rotation(nodes, current, Next).value.props.nodeName, Previous);
      back.Ok? && back.value.props.nodeName == current
  {
    var n := |nodes|;
    var i := Rings.FirstIndex(nodes, (k: nat, m: Node) => m.props.nodeName == current).value;
    var j := Rings.NextIndex(i, n);
    var name := nodes[j].props.nodeName;
    var found := Rings.FirstIndex(nodes, (k: nat, m: Node) => m.props.nodeName == name);
    assert found == Some(j) by {
      if found.None? {
        assert false;
      } else if found.value != j {
        assert false;
      }
    }
    Rings.NextPrevInverse(i, n);
  }
}
