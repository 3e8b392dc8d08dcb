// The Spinnaker driver's typed accessors over a GenICam node map: each
// setter runs the writability check (and checks numeric values are in
// range) before writing; each getter checks the node is readable before
// reading. Setters take the check they run as a parameter: the one in the
// source, or the one its warnings describe.

module SpinnakerNodes {
  import opened Status
  import opened Text
  import opened OpRange

  /** A node's access flags as GenICam reports them. */
  datatype Access = Access(available: bool, writable: bool, readable: bool)

  /** What a missing node, or one of another type than the accessor
      expects, looks like: the typed node handle is null and every check
      fails. */
  const NoAccess: Access := Access(false, false, false)

  /** One node of the map, by type. */
  datatype Node =
    | BoolNode(access: Access, flag: bool)
    | IntNode(access: Access, imin: int, imax: int, integer: int)
    | FloatNode(access: Access, fmin: real, fmax: real, number: real)
    | EnumNode(access: Access, entries: map<string, Access>, current: string)
    | StrNode(access: Access, text: string)
    | CommandNode(access: Access, executions: nat)

  type NodeMap = map<string, Node>

  /** `is_writable` as written: the availability check is made twice and
      the writability flag is never consulted. */
  predicate IsWritableAsWritten(a: Access) {
    a.available && a.available
  }

  /** `is_writable` as its warnings say it is meant: available and
      writable. */
  predicate IsWritable(a: Access) {
    a.available && a.writable
  }

  /** `is_readable`: the node's readability flag alone. */
  predicate IsReadable(a: Access) {
    a.readable
  }

  /** An available read-only node passes the check as written, so a
      setter goes on to write to it; the intended check refuses it. */
  lemma WritableCheckAdmitsReadOnly()
    ensures IsWritableAsWritten(Access(true, false, true))
    ensures !IsWritable(Access(true, false, true))
  {
  }

  /** The intended check is never weaker than the one as written: the two
      disagree exactly on available nodes that are not writable. */
  lemma WritableChecksDiffer(a: Access)
    ensures IsWritable(a) ==> IsWritableAsWritten(a)
    ensures IsWritableAsWritten(a) && !IsWritable(a) <==> ReadOnly(a)
  {
  }

  /** An available node that refuses writes. */
  predicate ReadOnly(a: Access) {
    a.available && !a.writable
  }

  /** The writability check a setter runs: `is_writable` as written, or as
      intended. */
  datatype WriteCheck = AsWritten | Intended

  predicate Passes(check: WriteCheck, a: Access) {
    match check
    case AsWritten => IsWritableAsWritten(a)
    case Intended => IsWritable(a)
  }

  // Typed lookups: the node's access when it has the expected type.

  function BoolAccess(nodes: NodeMap, name: string): Access {
    if name in nodes && nodes[name].BoolNode? then nodes[name].access else NoAccess
  }

  function IntAccess(nodes: NodeMap, name: string): Access {
    if name in nodes && nodes[name].IntNode? then nodes[name].access else NoAccess
  }

  function FloatAccess(nodes: NodeMap, name: string): Access {
    if name in nodes && nodes[name].FloatNode? then nodes[name].access else NoAccess
  }

  function EnumAccess(nodes: NodeMap, name: string): Access {
    if name in nodes && nodes[name].EnumNode? then nodes[name].access else NoAccess
  }

  function StrAccess(nodes: NodeMap, name: string): Access {
    if name in nodes && nodes[name].StrNode? then nodes[name].access else NoAccess
  }

  /** The outcome of a setter: its status and the node map afterwards. */
  datatype Written = Written(status: Status, nodes: NodeMap)

  /** The reason of an out-of-range write. */
  function RangeWhy(name: string, value: string, min: string, max: string): string {
    "[" + name + "] Value " + value + " out of range. Current range: [" + min + "," + max + "]"
  }

  /** `set_op_bool`: a node that passes the check is written; with the
      check as written, that includes an available read-only node. */
  function SetOpBool(nodes: NodeMap, name: string, value: bool, check: WriteCheck): (r: Written)
    ensures r.status.code == OK <==> Passes(check, BoolAccess(nodes, name))
    ensures r.status.code != OK ==> r.status == WriteabilityError(name) && r.nodes == nodes
    ensures r.status.code == OK ==> r.nodes == nodes[name := BoolNode(nodes[name].access, value)]
  {
    if !Passes(check, BoolAccess(nodes, name)) then Written(WriteabilityError(name), nodes)
    else Written(Ok, nodes[name := nodes[name].(flag := value)])
  }

  /** `get_op_bool`. */
  function GetOpBool(nodes: NodeMap, name: string, out: bool): (r: Got<bool>)
    ensures r.status.code == OK <==> IsReadable(BoolAccess(nodes, name))
    ensures r.status.code != OK ==> r.status == ReadabilityError(name) && r.value == out
    ensures r.status.code == OK ==> r.value == nodes[name].flag
  {
    if !IsReadable(BoolAccess(nodes, name)) then Got(ReadabilityError(name), out)
    else Got(Ok, nodes[name].flag)
  }

  /** `set_op_enum`: the node must pass the check and the named entry be
      readable; a missing entry is modelled as failing the readability check
      under the name `node->entry`. */
  function SetOpEnum(nodes: NodeMap, name: string, value: string, check: WriteCheck): (r: Written)
    ensures r.status.code == OK <==>
      Passes(check, EnumAccess(nodes, name)) && value in nodes[name].entries && IsReadable(nodes[name].entries[value])
    ensures !Passes(check, EnumAccess(nodes, name)) ==> r.status == WriteabilityError(name)
    ensures Passes(check, EnumAccess(nodes, name)) && r.status.code != OK ==>
      r.status == ReadabilityError(name + "->" + value)
    ensures r.status.code != OK ==> r.nodes == nodes
    ensures r.status.code == OK ==> r.nodes == nodes[name := nodes[name].(current := value)]
  {
    if !Passes(check, EnumAccess(nodes, name)) then Written(WriteabilityError(name), nodes)
    else
      var entries := nodes[name].entries;
      var entry := if value in entries then entries[value] else NoAccess;
      if !IsReadable(entry) then Written(ReadabilityError(name + "->" + value), nodes)
      else Written(Ok, nodes[name := nodes[name].(current := value)])
  }

  /** `get_op_enum`: the symbolic name of the current entry. */
  function GetOpEnum(nodes: NodeMap, name: string, out: string): (r: Got<string>)
    ensures r.status.code == OK <==> IsReadable(EnumAccess(nodes, name))
    ensures r.status.code != OK ==> r.status == ReadabilityError(name) && r.value == out
    ensures r.status.code == OK ==> r.value == nodes[name].current
  {
    if !IsReadable(EnumAccess(nodes, name)) then Got(ReadabilityError(name), out)
    else Got(Ok, nodes[name].current)
  }

  /** `set_op_int`: a value outside the node's current range is refused
      with OUT_OF_RANGE and a reason naming the value and the range. */
  function SetOpInt(nodes: NodeMap, name: string, value: int, check: WriteCheck): (r: Written)
    ensures r.status.code == OK <==>
      Passes(check, IntAccess(nodes, name)) && nodes[name].imin <= value <= nodes[name].imax
    ensures !Passes(check, IntAccess(nodes, name)) ==> r.status == WriteabilityError(name)
    ensures Passes(check, IntAccess(nodes, name)) && r.status.code != OK ==>
      r.status.code == OUT_OF_RANGE &&
      r.status.why == RangeWhy(name, SignedDecimal(value), SignedDecimal(nodes[name].imin), SignedDecimal(nodes[name].imax))
    ensures r.status.code != OK ==> r.nodes == nodes
    ensures r.status.code == OK ==> r.nodes == nodes[name := nodes[name].(integer := value)]
  {
    if !Passes(check, IntAccess(nodes, name)) then Written(WriteabilityError(name), nodes)
    else
      var node := nodes[name];
      if value < node.imin || value > node.imax then
        var why := RangeWhy(name, SignedDecimal(value), SignedDecimal(node.imin), SignedDecimal(node.imax));
        Written(InternalError(OUT_OF_RANGE, why), nodes)
      else Written(Ok, nodes[name := node.(integer := value)])
  }

  /** `get_op_int`. */
  function GetOpInt(nodes: NodeMap, name: string, out: int): (r: Got<int>)
    ensures r.status.code == OK <==> IsReadable(IntAccess(nodes, name))
    ensures r.status.code != OK ==> r.status == ReadabilityError(name) && r.value == out
    ensures r.status.code == OK ==> r.value == nodes[name].integer
  {
    if !IsReadable(IntAccess(nodes, name)) then Got(ReadabilityError(name), out)
    else Got(Ok, nodes[name].integer)
  }

  /** `minmax_op_int`: the node's current range. */
  function MinMaxOpInt(nodes: NodeMap, name: string, out: OpRange): (r: Got<OpRange>)
    ensures r.status.code == OK <==> IsReadable(IntAccess(nodes, name))
    ensures r.status.code != OK ==> r.status == ReadabilityError(name) && r.value == out
    ensures r.status.code == OK ==> r.value.min == nodes[name].imin as real && r.value.max == nodes[name].imax as real
  {
    if !IsReadable(IntAccess(nodes, name)) then Got(ReadabilityError(name), out)
    else Got(Ok, OpRange(nodes[name].imin as real, nodes[name].imax as real))
  }

  /** `set_op_float`: as `set_op_int`; `show` stands for the way `fmt`
      prints a float. */
  function SetOpFloat(nodes: NodeMap, name: string, value: real, show: real -> string, check: WriteCheck): (r: Written)
    ensures r.status.code == OK <==>
      Passes(check, FloatAccess(nodes, name)) && nodes[name].fmin <= value <= nodes[name].fmax
    ensures !Passes(check, FloatAccess(nodes, name)) ==> r.status == WriteabilityError(name)
    ensures Passes(check, FloatAccess(nodes, name)) && r.status.code != OK ==>
      r.status.code == OUT_OF_RANGE &&
      r.status.why == RangeWhy(name, show(value), show(nodes[name].fmin), show(nodes[name].fmax))
    ensures r.status.code != OK ==> r.nodes == nodes
    ensures r.status.code == OK ==> r.nodes == nodes[name := nodes[name].(number := value)]
  {
    if !Passes(check, FloatAccess(nodes, name)) then Written(WriteabilityError(name), nodes)
    else
      var node := nodes[name];
      if value < node.fmin || value > node.fmax then
        Written(InternalError(OUT_OF_RANGE, RangeWhy(name, show(value), show(node.fmin), show(node.fmax))), nodes)
      else Written(Ok, nodes[name := node.(number := value)])
  }

  /** `get_op_float`. */
  function GetOpFloat(nodes: NodeMap, name: string, out: real): (r: Got<real>)
    ensures r.status.code == OK <==> IsReadable(FloatAccess(nodes, name))
    ensures r.status.code != OK ==> r.status == ReadabilityError(name) && r.value == out
    ensures r.status.code == OK ==> r.value == nodes[name].number
  {
    if !IsReadable(FloatAccess(nodes, name)) then Got(ReadabilityError(name), out)
    else Got(Ok, nodes[name].number)
  }

  /** `minmax_op_float`: the node's current range. */
  function MinMaxOpFloat(nodes: NodeMap, name: string, out: OpRange): (r: Got<OpRange>)
    ensures r.status.code == OK <==> IsReadable(FloatAccess(nodes, name))
    ensures r.status.code != OK ==> r.status == ReadabilityError(name) && r.value == out
    ensures r.status.code == OK ==> r.value == OpRange(nodes[name].fmin, nodes[name].fmax)
  {
    if !IsReadable(FloatAccess(nodes, name)) then Got(ReadabilityError(name), out)
    else Got(Ok, OpRange(nodes[name].fmin, nodes[name].fmax))
  }

  /** `set_op_str`: as `set_op_bool`. */
  function SetOpStr(nodes: NodeMap, name: string, value: string, check: WriteCheck): (r: Written)
    ensures r.status.code == OK <==> Passes(check, StrAccess(nodes, name))
    ensures r.status.code != OK ==> r.status == WriteabilityError(name) && r.nodes == nodes
    ensures r.status.code == OK ==> r.nodes == nodes[name := StrNode(nodes[name].access, value)]
  {
    if !Passes(check, StrAccess(nodes, name)) then Written(WriteabilityError(name), nodes)
    else Written(Ok, nodes[name := nodes[name].(text := value)])
  }

  /** `get_op_str` as written: the readability error is built and then
      dropped, so the value is read and OK returned whatever the node's
      flags. Reading goes through the typed node handle, so the node must
      exist with the string type. */
  function GetOpStrAsWritten(nodes: NodeMap, name: string, out: string): (r: Got<string>)
    requires name in nodes && nodes[name].StrNode?
    ensures r.status == Ok && r.value == nodes[name].text
  {
    if !IsReadable(StrAccess(nodes, name)) then
      var dropped := ReadabilityError(name);
      Got(Ok, nodes[name].text)
    else Got(Ok, nodes[name].text)
  }

  /** `get_op_str` with the readability error returned, as every other
      getter does. */
  function GetOpStr(nodes: NodeMap, name: string, out: string): (r: Got<string>)
    ensures r.status.code == OK <==> IsReadable(StrAccess(nodes, name))
    ensures r.status.code != OK ==> r.status == ReadabilityError(name) && r.value == out
    ensures r.status.code == OK ==> r.value == nodes[name].text
  {
    if !IsReadable(StrAccess(nodes, name)) then Got(ReadabilityError(name), out)
    else Got(Ok, nodes[name].text)
  }

  /** A string node that is not readable: as written the getter reports
      success, the corrected one reports the readability error. */
  lemma StrGetterIgnoresReadability(text: string, out: string)
    ensures var nodes := map["DeviceUserID" := StrNode(Access(true, true, false), text)];
      GetOpStrAsWritten(nodes, "DeviceUserID", out).status == Ok &&
      GetOpStr(nodes, "DeviceUserID", out).status == ReadabilityError("DeviceUserID")
  {
  }

  /** `execute_op`: the command is executed and OK returned, with no
      check; the node must exist with the command type. */
  function ExecuteOp(nodes: NodeMap, name: string): (r: Written)
    requires name in nodes && nodes[name].CommandNode?
    ensures r.status == Ok
    ensures name in r.nodes && r.nodes[name].CommandNode?
    ensures r.nodes[name].executions == nodes[name].executions + 1
    ensures forall other :: other != name ==> (other in r.nodes <==> other in nodes)
    ensures forall other :: other in nodes && other != name ==> r.nodes[other] == nodes[other]
  {
    var node := nodes[name];
    Written(Ok, nodes[name := node.(executions := node.executions + 1)])
  }

  /** Where the setters as written and as intended part ways: on a node
      that is not an available read-only one they agree; on an available
      read-only node the intended setter refuses with the writeability
      error, while the one as written never does (it writes, or fails a
      later check). */
  lemma SetterChecksDiffer(nodes: NodeMap, name: string, b: bool, i: int, x: real, s: string, show: real -> string)
    ensures !ReadOnly(BoolAccess(nodes, name)) ==> SetOpBool(nodes, name, b, AsWritten) == SetOpBool(nodes, name, b, Intended)
    ensures ReadOnly(BoolAccess(nodes, name)) ==>
      SetOpBool(nodes, name, b, Intended) == Written(WriteabilityError(name), nodes) &&
      SetOpBool(nodes, name, b, AsWritten) == Written(Ok, nodes[name := BoolNode(nodes[name].access, b)])
    ensures !ReadOnly(EnumAccess(nodes, name)) ==> SetOpEnum(nodes, name, s, AsWritten) == SetOpEnum(nodes, name, s, Intended)
    ensures ReadOnly(EnumAccess(nodes, name)) ==>
      SetOpEnum(nodes, name, s, Intended) == Written(WriteabilityError(name), nodes) &&
      SetOpEnum(nodes, name, s, AsWritten).status != WriteabilityError(name)
    ensures !ReadOnly(IntAccess(nodes, name)) ==> SetOpInt(nodes, name, i, AsWritten) == SetOpInt(nodes, name, i, Intended)
    ensures ReadOnly(IntAccess(nodes, name)) ==>
      SetOpInt(nodes, name, i, Intended) == Written(WriteabilityError(name), nodes) &&
      SetOpInt(nodes, name, i, AsWritten).status != WriteabilityError(name)
    ensures !ReadOnly(FloatAccess(nodes, name)) ==> SetOpFloat(nodes, name, x, show, AsWritten) == SetOpFloat(nodes, name, x, show, Intended)
    ensures ReadOnly(FloatAccess(nodes, name)) ==>
      SetOpFloat(nodes, name, x, show, Intended) == Written(WriteabilityError(name), nodes) &&
      SetOpFloat(nodes, name, x, show, AsWritten).status != WriteabilityError(name)
    ensures !ReadOnly(StrAccess(nodes, name)) ==> SetOpStr(nodes, name, s, AsWritten) == SetOpStr(nodes, name, s, Intended)
    ensures ReadOnly(StrAccess(nodes, name)) ==>
      SetOpStr(nodes, name, s, Intended) == Written(WriteabilityError(name), nodes) &&
      SetOpStr(nodes, name, s, AsWritten) == Written(Ok, nodes[name := StrNode(nodes[name].access, s)])
  {
    if ReadOnly(EnumAccess(nodes, name)) && SetOpEnum(nodes, name, s, AsWritten).status.code != OK {
      var why := SetOpEnum(nodes, name, s, AsWritten).status.why;
      assert why == "[" + name + "->" + s + "] Not available or not readable";
      assert |why| > |WriteabilityError(name).why|;
    }
  }

  // Round trips: what a successful setter wrote, the matching getter reads
  // back, provided the node is readable; other nodes are left alone.

  lemma BoolRoundTrip(nodes: NodeMap, name: string, value: bool, out: bool, check: WriteCheck)
    requires SetOpBool(nodes, name, value, check).status.code == OK
    requires IsReadable(nodes[name].access)
    ensures GetOpBool(SetOpBool(nodes, name, value, check).nodes, name, out) == Got(Ok, value)
  {
  }

  lemma EnumRoundTrip(nodes: NodeMap, name: string, value: string, out: string, check: WriteCheck)
    requires SetOpEnum(nodes, name, value, check).status.code == OK
    requires IsReadable(nodes[name].access)
    ensures GetOpEnum(SetOpEnum(nodes, name, value, check).nodes, name, out) == Got(Ok, value)
  {
  }

  lemma IntRoundTrip(nodes: NodeMap, name: string, value: int, out: int, check: WriteCheck)
    requires SetOpInt(nodes, name, value, check).status.code == OK
    requires IsReadable(nodes[name].access)
    ensures GetOpInt(SetOpInt(nodes, name, value, check).nodes, name, out) == Got(Ok, value)
  {
  }

  lemma FloatRoundTrip(nodes: NodeMap, name: string, value: real, show: real -> string, out: real, check: WriteCheck)
    requires SetOpFloat(nodes, name, value, show, check).status.code == OK
    requires IsReadable(nodes[name].access)
    ensures GetOpFloat(SetOpFloat(nodes, name, value, show, check).nodes, name, out) == Got(Ok, value)
  {
  }

  lemma StrRoundTrip(nodes: NodeMap, name: string, value: string, out: string, check: WriteCheck)
    requires SetOpStr(nodes, name, value, check).status.code == OK
    requires IsReadable(nodes[name].access)
    ensures GetOpStr(SetOpStr(nodes, name, value, check).nodes, name, out) == Got(Ok, value)
  {
  }

  /** A write leaves every other node as it was, and keeps the written
      node's type, flags and range. */
  lemma SettersFrame(nodes: NodeMap, name: string, other: string, b: bool, i: int, x: real, s: string, show: real -> string, check: WriteCheck)
    requires other != name
    ensures var n := SetOpBool(nodes, name, b, check).nodes; (other in n <==> other in nodes) && (other in nodes ==> n[other] == nodes[other])
    ensures var n := SetOpEnum(nodes, name, s, check).nodes; (other in n <==> other in nodes) && (other in nodes ==> n[other] == nodes[other])
    ensures var n := SetOpInt(nodes, name, i, check).nodes; (other in n <==> other in nodes) && (other in nodes ==> n[other] == nodes[other])
    ensures var n := SetOpFloat(nodes, name, x, show, check).nodes; (other in n <==> other in nodes) && (other in nodes ==> n[other] == nodes[other])
    ensures var n := SetOpStr(nodes, name, s, check).nodes; (other in n <==> other in nodes) && (other in nodes ==> n[other] == nodes[other])
  {
  }

  /** A value read from an integer node that sits within its range can be
      written back. */
  lemma IntReadWriteBack(nodes: NodeMap, name: string, out: int, check: WriteCheck)
    requires GetOpInt(nodes, name, out).status.code == OK
    requires Passes(check, nodes[name].access)
    requires nodes[name].imin <= nodes[name].integer <= nodes[name].imax
    ensures SetOpInt(nodes, name, GetOpInt(nodes, name, out).value, check) == Written(Ok, nodes)
  {
  }
}
