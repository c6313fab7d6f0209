/** The routing table of hardware/route_pcb.py: the segments and vias that the
    calls to seg() and via() append, one by one, while the script is loaded. */
module Board {

  /** A coordinate, width or size as Python's f-string renders the float. How
      floats are rendered is not modelled; the text only never holds a newline. */
  type Num = s: string | '\n' !in s

  datatype Layer = FCu | BCu

  /** The KiCad layer names. */
  function LayerName(layer: Layer): string {
    match layer
    case FCu => "F.Cu"
    case BCu => "B.Cu"
  }

  /** Default trace width and the via pad and drill sizes, as str() renders them. */
  const TW: Num := "0.25"
  const VIA_SIZE: Num := "0.6"
  const VIA_DRILL: Num := "0.3"

  /** A straight trace from (x1, y1) to (x2, y2) on one layer. */
  datatype Segment = Segment(x1: Num, y1: Num, x2: Num, y2: Num, net: int, layer: Layer, width: Num)

  /** A via at (x, y); its sizes and layers are the same for every via. */
  datatype Via = Via(x: Num, y: Num, net: int)

  /** The module-level lists `segments` and `vias`. */
  class RouteTable {
    var segments: seq<Segment>
    var vias: seq<Via>

    /** Both lists start empty. */
    constructor ()
      ensures segments == [] && vias == []
    {
      segments := [];
      vias := [];
    }

    /** seg(x1, y1, x2, y2, net, layer=FCU, width=TW): one segment at the end
        of the list, nothing else changed. */
    method AddSegment(x1: Num, y1: Num, x2: Num, y2: Num, net: int, layer: Layer := FCu, width: Num := TW)
      modifies this
      ensures segments == old(segments) + [Segment(x1, y1, x2, y2, net, layer, width)]
      ensures vias == old(vias)
    {
      segments := segments + [Segment(x1, y1, x2, y2, net, layer, width)];
    }

    /** via(x, y, net): one via at the end of the list, nothing else changed. */
    method AddVia(x: Num, y: Num, net: int)
      modifies this
      ensures vias == old(vias) + [Via(x, y, net)]
      ensures segments == old(segments)
    {
      vias := vias + [Via(x, y, net)];
    }
  }
}
