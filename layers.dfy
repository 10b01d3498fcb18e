/** The shape layer: a container element whose children a placement run owns outright. */
module Layers {

  /** The rendered shapes of one layer, in the order they were appended. */
  class ShapeLayer<T> {
    var elements: seq<T>

    constructor ()
      ensures elements == []
    {
      elements := [];
    }

    /** `layer.innerHTML = ''`: every previously rendered shape is removed. */
    method Clear()
      modifies this
      ensures elements == []
    {
      elements := [];
    }

    /** `layer.appendChild(el)`: the new shape is rendered after all earlier ones. */
    method Append(x: T)
      modifies this
      ensures elements == old(elements) + [x]
    {
      elements := elements + [x];
    }
  }
}
