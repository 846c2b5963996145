/**
 * The records that the parsers hand to the coordinator.  Everything the
 * coordinator never inspects is kept as an opaque `content` string; only the
 * class name (the merge key) and the method list of an implementation node
 * take part in reconciliation.
 */
module Nodes {

  /** Swift's optional: a parser that found nothing returns `None` (nil). */
  datatype Option<+T> = None | Some(value: T) {
    /** `x ?? default` */
    function GetOr(default: T): T {
      match this
      case Some(v) => v
      case None => default
    }
  }

  /** One parsed method (or method call) record. */
  datatype MethodNode = MethodNode(content: string)

  /** A class declaration (`@interface` block, or a Swift class header). */
  datatype InterfaceNode = InterfaceNode(className: string, content: string)

  /** A class body (`@implementation` block): its name and its methods. */
  datatype ImplementationNode = ImplementationNode(className: string, content: string, methods: seq<MethodNode>)

  /** A protocol declaration; passed through untouched. */
  datatype ProtocolNode = ProtocolNode(name: string, content: string)

  /** The canonical class record: a declaration and, if some file had one, its body. */
  datatype ClassNode = ClassNode(interface: InterfaceNode, implementation: Option<ImplementationNode>)
}
