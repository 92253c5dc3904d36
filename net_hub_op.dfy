/** The network hub's operations (net_hub/src/net_hub_op.rs) and the opcode each is issued with. */
module NetHubOps {
  import opened Bytes
  import PortModes

  /** `enum NetHubOp`, in declaration order. */
  datatype NetHubOp =
    | SetInputPortEnabled(port: byte, state: bool)
    | IsInputPortConnected(port: byte)
    | IsOutputPortConnected(port: byte)
    | InvokeSimpleOutputPort(port: byte)
    | IsInputPortPending(port: byte)
    | ClaimSimpleInputPort(port: byte)
    | GetInputPortMode(port: byte)
    | GetOutputPortMode(port: byte)
    | SetInputPortMode(port: byte, mode: PortModes.PortMode)
    | SetOutputPortMode(port: byte, mode: PortModes.PortMode)
    | InvokeComplexOutputPort(port: byte, address: usize, size: usize)
    | GetPendingInputPort
    | ClaimComplexInputPort(port: byte, address: usize)
  {
    /** `id()`: the opcode written to the CALL_OP register. */
    function Id(): u32 {
      match this
      case SetInputPortEnabled(_, _) => 0x0
      case IsInputPortConnected(_) => 0x1
      case IsOutputPortConnected(_) => 0x2
      case InvokeSimpleOutputPort(_) => 0x3
      case IsInputPortPending(_) => 0x4
      case ClaimSimpleInputPort(_) => 0x5
      case GetInputPortMode(_) => 0x6
      case GetOutputPortMode(_) => 0x7
      case SetInputPortMode(_, _) => 0x8
      case SetOutputPortMode(_, _) => 0x9
      case InvokeComplexOutputPort(_, _, _) => 0xA
      case GetPendingInputPort => 0xB
      case ClaimComplexInputPort(_, _) => 0xC
    }

    /** The same variant with every payload field at its zero value. */
    function Erased(): NetHubOp {
      match this
      case SetInputPortEnabled(_, _) => SetInputPortEnabled(0, false)
      case IsInputPortConnected(_) => IsInputPortConnected(0)
      case IsOutputPortConnected(_) => IsOutputPortConnected(0)
      case InvokeSimpleOutputPort(_) => InvokeSimpleOutputPort(0)
      case IsInputPortPending(_) => IsInputPortPending(0)
      case ClaimSimpleInputPort(_) => ClaimSimpleInputPort(0)
      case GetInputPortMode(_) => GetInputPortMode(0)
      case GetOutputPortMode(_) => GetOutputPortMode(0)
      case SetInputPortMode(_, _) => SetInputPortMode(0, PortModes.Simple)
      case SetOutputPortMode(_, _) => SetOutputPortMode(0, PortModes.Simple)
      case InvokeComplexOutputPort(_, _, _) => InvokeComplexOutputPort(0, 0, 0)
      case GetPendingInputPort => GetPendingInputPort
      case ClaimComplexInputPort(_, _) => ClaimComplexInputPort(0, 0)
    }
  }

  /** The operations in declaration order, one of each variant. */
  const DECLARATION_ORDER: seq<NetHubOp> := [
    SetInputPortEnabled(0, false), IsInputPortConnected(0), IsOutputPortConnected(0),
    InvokeSimpleOutputPort(0), IsInputPortPending(0), ClaimSimpleInputPort(0),
    GetInputPortMode(0), GetOutputPortMode(0), SetInputPortMode(0, PortModes.Simple),
    SetOutputPortMode(0, PortModes.Simple), InvokeComplexOutputPort(0, 0, 0),
    GetPendingInputPort, ClaimComplexInputPort(0, 0)]

  /**
   * The opcodes number the variants 0x0 to 0xC in declaration order, and
   * two operations share an opcode exactly when they are the same variant,
   * whatever their ports, states, modes, addresses and sizes.
   */
  lemma IdsInDeclarationOrder(a: NetHubOp, b: NetHubOp)
    ensures a.Id() <= 0xC && DECLARATION_ORDER[a.Id()] == a.Erased()
    ensures forall i :: 0 <= i < |DECLARATION_ORDER| ==> DECLARATION_ORDER[i].Id() == i
    ensures a.Id() == b.Id() <==> a.Erased() == b.Erased()
  {
  }
}
