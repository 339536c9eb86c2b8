/**
 * The PipeWire objects the audio scripts read from `pw-dump`, and the filter that
 * picks the devices and the audio nodes out of its JSON array.
 */
module Pipewire {
  import opened Wrappers
  import opened Text
  import Sorting

  /** A profile or a route of a device; `available` is "yes", "no" or "unknown". */
  datatype Profile = Profile(index: nat, name: string, description: string, available: string)

  datatype Device = Device(id: nat, profiles: seq<Profile>, routes: seq<Profile>)

  /**
   * The node properties the scripts look at. The profile fields are absent for
   * devices such as Bluetooth headsets, so they are optional.
   */
  datatype NodeProps = NodeProps(
    deviceId: nat,
    profileDescription: Option<string>,
    profileName: Option<string>,
    nodeName: string,
    nodeDescription: string,
    objectSerial: nat,
    mediaClass: string)

  datatype Node = Node(id: nat, props: NodeProps)

  /** A JSON value as `pw-dump` prints it; an object is a map from keys to values. */
  datatype Json =
    | Null
    | Bool(b: bool)
    | Number(n: int)
    | Str(s: string)
    | Array(items: seq<Json>)
    | Object(fields: map<string, Json>)

  /** What one element of the dump contributes. */
  datatype Class = Skip | NodeObject | DeviceObject | NoType

  /**
   * A node is of interest when it belongs to a device and is an audio node:
   * `info.props` holds a numeric `device.id` and a `media.class` starting with "Audio".
   */
  predicate AudioDeviceNode(values: map<string, Json>) {
    && "info" in values && values["info"].Object?
    && "props" in values["info"].fields && values["info"].fields["props"].Object?
    && var props := values["info"].fields["props"].fields;
       && "device.id" in props && props["device.id"].Number?
       && "media.class" in props && props["media.class"].Str?
       && StartsWith(props["media.class"].s, "Audio")
  }

  function Classify(o: Json): Class {
    if !o.Object? then Skip
    else if "type" !in o.fields then NoType
    else match o.fields["type"]
      case Str(t) =>
        if t == "PipeWire:Interface:Node" then (if AudioDeviceNode(o.fields) then NodeObject else Skip)
        else if t == "PipeWire:Interface:Device" then DeviceObject
        else Skip
      case _ => Skip
  }

  predicate IsNodeObject(o: Json) {
    Classify(o) == NodeObject
  }

  predicate IsDeviceObject(o: Json) {
    Classify(o) == DeviceObject
  }

  /**
   * The outcome of `parse_pw_dump`: the lists, the first object whose conversion into
   * a record failed, or a panic on an object without a "type" key.
   */
  datatype Dump = Dump(devices: seq<Device>, nodes: seq<Node>) | ConversionFailed(object: Json) | MissingType

  /** Handles one element of the dump; a failure is final. */
  function DumpStep(d: Dump, o: Json, toNode: Json -> Option<Node>, toDevice: Json -> Option<Device>): Dump {
    if !d.Dump? then d
    else match Classify(o)
      case Skip => d
      case NoType => MissingType
      case NodeObject => if toNode(o).Some? then Dump(d.devices, d.nodes + [toNode(o).value]) else ConversionFailed(o)
      case DeviceObject => if toDevice(o).Some? then Dump(d.devices + [toDevice(o).value], d.nodes) else ConversionFailed(o)
  }

  /**
   * The dump after handling `objects` in order. `toNode` and `toDevice` stand for the
   * record conversions, which may fail.
   */
  function ParseDump(objects: seq<Json>, toNode: Json -> Option<Node>, toDevice: Json -> Option<Device>): Dump
    decreases |objects|
  {
    if objects == [] then Dump([], [])
    else DumpStep(ParseDump(objects[..|objects| - 1], toNode, toDevice), objects[|objects| - 1], toNode, toDevice)
  }

  /** Converts every element, or fails if any conversion does. */
  function ConvertAll<T>(js: seq<Json>, f: Json -> Option<T>): (r: Option<seq<T>>)
    ensures r.Some? ==> |r.value| == |js|
    decreases |js|
  {
    if js == [] then Some([])
    else
      var init := ConvertAll(js[..|js| - 1], f);
      if init.Some? && f(js[|js| - 1]).Some? then Some(init.value + [f(js[|js| - 1]).value]) else None
  }

  /** `parse_pw_dump` over the already-decoded array. */
  method ParsePwDump(objects: seq<Json>, toNode: Json -> Option<Node>, toDevice: Json -> Option<Device>)
    returns (r: Dump)
    ensures r == ParseDump(objects, toNode, toDevice)
  {
    var devices: seq<Device> := [];
    var nodes: seq<Node> := [];
    var i := 0;
    while i < |objects|
      invariant 0 <= i <= |objects|
      invariant ParseDump(objects[..i], toNode, toDevice) == Dump(devices, nodes)
    {
      var o := objects[i];
      assert objects[..i + 1][..i] == objects[..i];
      if o.Object? {
        if "type" !in o.fields {
          FailureIsFinal(objects, toNode, toDevice, i + 1);
          assert objects[..|objects|] == objects;
          return MissingType;
        }
        var kind := Classify(o);
        if kind == NodeObject {
          var node := toNode(o);
          if node.None? {
            FailureIsFinal(objects, toNode, toDevice, i + 1);
            assert objects[..|objects|] == objects;
            return ConversionFailed(o);
          }
          nodes := nodes + [node.value];
        } else if kind == DeviceObject {
          var device := toDevice(o);
          if device.None? {
            FailureIsFinal(objects, toNode, toDevice, i + 1);
            assert objects[..|objects|] == objects;
            return ConversionFailed(o);
          }
          devices := devices + [device.value];
        }
      }
      i := i + 1;
    }
    assert objects[..i] == objects;
    return Dump(devices, nodes);
  }

  /** Once an element fails, the rest of the dump is not looked at. */
  lemma {:induction false} FailureIsFinal(objects: seq<Json>, toNode: Json -> Option<Node>, toDevice: Json -> Option<Device>, i: nat)
    requires i <= |objects|
    requires !ParseDump(objects[..i], toNode, toDevice).Dump?
    ensures ParseDump(objects, toNode, toDevice) == ParseDump(objects[..i], toNode, toDevice)
    decreases |objects|
  {
    if i < |objects| {
      var init := objects[..|objects| - 1];
      assert init[..i] == objects[..i];
      FailureIsFinal(init, toNode, toDevice, i);
    } else {
      assert objects[..i] == objects;
    }
  }

  lemma {:induction false} FilterSnoc(s: seq<Json>, x: Json, p: Json -> bool)
    ensures Sorting.Filter(s + [x], p) == Sorting.Filter(s, p) + (if p(x) then [x] else [])
  {
    assert (s + [x])[..|s + [x]| - 1] == s;
  }

  lemma {:induction false} ConvertAllSnoc<T>(js: seq<Json>, x: Json, f: Json -> Option<T>)
    ensures ConvertAll(js + [x], f) ==
      if ConvertAll(js, f).Some? && f(x).Some? then Some(ConvertAll(js, f).value + [f(x).value]) else None
  {
    assert (js + [x])[..|js + [x]| - 1] == js;
  }

  /** The lists of a dump grow by the element's conversion, in the list its class names. */
  lemma {:induction false} DumpStepLists(objects: seq<Json>, o: Json, toNode: Json -> Option<Node>, toDevice: Json -> Option<Device>)
    requires ParseDump(objects + [o], toNode, toDevice).Dump?
    ensures ParseDump(objects, toNode, toDevice).Dump?
    ensures var d, e := ParseDump(objects, toNode, toDevice), ParseDump(objects + [o], toNode, toDevice);
      && e.nodes == d.nodes + (if IsNodeObject(o) then [toNode(o).value] else [])
      && e.devices == d.devices + (if IsDeviceObject(o) then [toDevice(o).value] else [])
      && (IsNodeObject(o) ==> toNode(o).Some?)
      && (IsDeviceObject(o) ==> toDevice(o).Some?)
      && Classify(o) != NoType
  {
    assert (objects + [o])[..|objects + [o]| - 1] == objects;
  }

  /**
   * A successful dump holds the converted node objects and device objects, each in
   * their order in the array.
   */
  lemma {:induction false} DumpContents(objects: seq<Json>, toNode: Json -> Option<Node>, toDevice: Json -> Option<Device>)
    requires ParseDump(objects, toNode, toDevice).Dump?
    ensures ConvertAll(Sorting.Filter(objects, IsNodeObject), toNode) == Some(ParseDump(objects, toNode, toDevice).nodes)
    ensures ConvertAll(Sorting.Filter(objects, IsDeviceObject), toDevice) == Some(ParseDump(objects, toNode, toDevice).devices)
    decreases |objects|
  {
    if objects != [] {
      var init := objects[..|objects| - 1];
      var o := objects[|objects| - 1];
      assert objects == init + [o];
      DumpStepLists(init, o, toNode, toDevice);
      DumpContents(init, toNode, toDevice);
      var d, e := ParseDump(init, toNode, toDevice), ParseDump(init + [o], toNode, toDevice);
      var nf, df := Sorting.Filter(init, IsNodeObject), Sorting.Filter(init, IsDeviceObject);
      FilterSnoc(init, o, IsNodeObject);
      FilterSnoc(init, o, IsDeviceObject);
      if IsNodeObject(o) {
        ConvertAllSnoc(nf, o, toNode);
        assert ConvertAll(nf + [o], toNode) == Some(e.nodes);
        assert Sorting.Filter(init + [o], IsNodeObject) == nf + [o];
      } else {
        assert Sorting.Filter(init + [o], IsNodeObject) == nf;
      }
      if IsDeviceObject(o) {
        ConvertAllSnoc(df, o, toDevice);
        assert ConvertAll(df + [o], toDevice) == Some(e.devices);
        assert Sorting.Filter(init + [o], IsDeviceObject) == df + [o];
      } else {
        assert Sorting.Filter(init + [o], IsDeviceObject) == df;
      }
    }
  }

  /** No object lacks a "type" key. */
  predicate AllTyped(objects: seq<Json>) {
    forall i :: 0 <= i < |objects| ==> Classify(objects[i]) != NoType
  }

  /**
   * The dump succeeds exactly when every object has a "type" key and every node and
   * device object converts.
   */
  lemma {:induction false} DumpSucceeds(objects: seq<Json>, toNode: Json -> Option<Node>, toDevice: Json -> Option<Device>)
    ensures ParseDump(objects, toNode, toDevice).Dump? <==>
      && AllTyped(objects)
      && ConvertAll(Sorting.Filter(objects, IsNodeObject), toNode).Some?
      && ConvertAll(Sorting.Filter(objects, IsDeviceObject), toDevice).Some?
    decreases |objects|
  {
    if objects != [] {
      var init := objects[..|objects| - 1];
      var o := objects[|objects| - 1];
      assert objects == init + [o];
      DumpSucceeds(init, toNode, toDevice);
      var d, e := ParseDump(init, toNode, toDevice), ParseDump(init + [o], toNode, toDevice);
      var nf, df := Sorting.Filter(init, IsNodeObject), Sorting.Filter(init, IsDeviceObject);
      FilterSnoc(init, o, IsNodeObject);
      FilterSnoc(init, o, IsDeviceObject);
      ConvertAllSnoc(nf, o, toNode);
      ConvertAllSnoc(df, o, toDevice);
      assert AllTyped(init + [o]) <==> AllTyped(init) && Classify(o) != NoType by {
        var objs := init + [o];
        if AllTyped(init) && Classify(o) != NoType {
          forall i | 0 <= i < |objs| ensures Classify(objs[i]) != NoType {
            if i < |init| { assert objs[i] == init[i]; }
          }
        }
        if AllTyped(objs) {
          forall i | 0 <= i < |init| ensures Classify(init[i]) != NoType {
            assert objs[i] == init[i];
          }
          assert objs[|init|] == o;
        }
      }
      assert e == DumpStep(d, o, toNode, toDevice);
      if IsNodeObject(o) {
        assert Sorting.Filter(init + [o], IsNodeObject) == nf + [o];
        assert Sorting.Filter(init + [o], IsDeviceObject) == df;
      } else if IsDeviceObject(o) {
        assert Sorting.Filter(init + [o], IsNodeObject) == nf;
        assert Sorting.Filter(init + [o], IsDeviceObject) == df + [o];
      } else {
        assert Sorting.Filter(init + [o], IsNodeObject) == nf;
        assert Sorting.Filter(init + [o], IsDeviceObject) == df;
      }
    }
  }

  /** A node object has a numeric device id and an audio media class. */
  lemma {:induction false} NodeObjectIsAudio(o: Json)
    requires IsNodeObject(o)
    ensures o.Object? && "info" in o.fields && o.fields["info"].Object?
    ensures var info := o.fields["info"].fields;
      "props" in info && info["props"].Object? && "media.class" in info["props"].fields &&
      info["props"].fields["media.class"].Str? && StartsWith(info["props"].fields["media.class"].s, "Audio")
  {
  }
}
