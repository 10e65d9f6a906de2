/** Value types shared by the index builder and the serving worker. */
module FaqTypes {

  /** A possibly absent value (JavaScript `null`/`undefined` versus a value). */
  datatype Option<+T> = None | Some(value: T) {
    /** The `??` operator: the value, or `default` when absent. */
    function GetOr(default: T): T {
      match this
      case Some(v) => v
      case None => default
    }
  }

  /** One hand-written FAQ entry, as read from the FAQ file. */
  datatype Faq = Faq(q: string, a: string)

  /** One entry of the precomputed index: the FAQ entry, its position and its embedding.
      Floating-point numbers are modelled as reals. */
  datatype FaqIndexItem = FaqIndexItem(id: int, q: string, a: string, embedding: seq<real>)
}
