/**
 Shared vocabulary of the edge runtime: status codes, the double type with its
 non-finite members, register words, node values and the limits of the model.
 */
module EdgeTypes {

  datatype Status = Ok | Error | Limit | Invalid

  datatype Option<+T> = None | Some(value: T)

  // A C double, with rounding left out: a real number or one of the non-finite members.
  datatype Double = Finite(r: real) | NaN | PosInf | NegInf

  type Word = x: int | 0 <= x < 0x1_0000
  type Int16 = x: int | -0x8000 <= x < 0x8000
  type Int32 = x: int | -0x8000_0000 <= x < 0x8000_0000
  type UInt32 = x: int | 0 <= x < 0x1_0000_0000

  datatype DataType = Unset | Bool | Int16Type | Int32Type | UInt32Type | DoubleType

  // The value union of a node, read through the node's data type.
  datatype Value =
    | BoolV(b: bool)
    | Int16V(i16: Int16)
    | Int32V(i32: Int32)
    | UInt32V(u32: UInt32)
    | DoubleV(d: Double)

  function TypeOf(v: Value): DataType {
    match v
    case BoolV(_) => Bool
    case Int16V(_) => Int16Type
    case Int32V(_) => Int32Type
    case UInt32V(_) => UInt32Type
    case DoubleV(_) => DoubleType
  }

  // What the template says about a node; fixed once the model is loaded.
  datatype NodeSpec = NodeSpec(
    assetId: string, id: string, name: string,
    dataType: DataType, writable: bool,
    unit: nat, register: nat, scale: Double,
    assetIndex: nat)

  // A node of the running system.
  datatype Node = Node(spec: NodeSpec, value: Value, pending: bool)

  ghost predicate WellTyped(nodes: seq<Node>) {
    forall i :: 0 <= i < |nodes| ==> TypeOf(nodes[i].value) == nodes[i].spec.dataType
  }

  function Specs(nodes: seq<Node>): (specs: seq<NodeSpec>)
    ensures |specs| == |nodes|
    ensures forall i :: 0 <= i < |nodes| ==> specs[i] == nodes[i].spec
  {
    seq(|nodes|, i requires 0 <= i < |nodes| => nodes[i].spec)
  }

  // Same nodes up to value and pending flag.
  ghost predicate SameSpecs(a: seq<Node>, b: seq<Node>) {
    |a| == |b| && forall i :: 0 <= i < |a| ==> a[i].spec == b[i].spec
  }

  datatype Condition = NoCondition | GreaterThan | LessThan

  datatype Event = Event(
    id: string, assetId: string, sourceNodeId: string,
    assetIndex: nat, sourceIndex: nat,
    condition: Condition, threshold: Double, severity: nat,
    active: bool)

  const MAX_ID_LEN := 64
  const MAX_NAME_LEN := 128
  const MAX_LINE_LEN := 512
  const MAX_ASSETS := 1024
  const MAX_NODES := 65536
  const MAX_EVENTS := 4096

  // The index that stands for "none".
  const INVALID_INDEX := 0xFFFF_FFFF

  // Holding register 40001 is offset 0 on the wire.
  const REGISTER_BASE := 40001

  // The node array of the model, updated in place.
  class EdgeNodes {
    var nodes: seq<Node>

    constructor (nodes: seq<Node>)
      ensures this.nodes == nodes
    {
      this.nodes := nodes;
    }
  }
}
