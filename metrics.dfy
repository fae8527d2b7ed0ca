/**
 * The labelled request counter of the service, as a table from label
 * values to counts. A child series that was never incremented reads as 0.
 */
module Metrics {

  /** The values of the counter's three labels, in declaration order. */
  datatype Labels = Labels(httpMethod: string, endpoint: string, statusCode: string)

  /** The counter's children: one count per label combination created so far. */
  type Cells = map<Labels, nat>

  /** The value of one child; a child that does not exist yet reads as 0. */
  function CountOf(cells: Cells, l: Labels): nat
  {
    if l in cells then cells[l] else 0
  }

  /** labels(...).inc(): the named child goes up by one, every other child is untouched. */
  function Incremented(cells: Cells, l: Labels): (r: Cells)
    ensures CountOf(r, l) == CountOf(cells, l) + 1
    ensures forall l' :: l' != l ==> CountOf(r, l') == CountOf(cells, l')
    ensures r.Keys == cells.Keys + {l}
  {
    cells[l := CountOf(cells, l) + 1]
  }

  /** A counter with label names, whose children the service increments in place. */
  class Counter {
    const name: string
    const documentation: string
    const labelNames: seq<string>
    var cells: Cells

    constructor (name: string, documentation: string, labelNames: seq<string>)
      ensures this.name == name && this.documentation == documentation
      ensures this.labelNames == labelNames
      ensures cells == map[]
    {
      this.name := name;
      this.documentation := documentation;
      this.labelNames := labelNames;
      cells := map[];
    }

    /** The current value of one child. */
    function Value(l: Labels): nat
      reads this
    {
      CountOf(cells, l)
    }

    /** labels(l).inc() */
    method Inc(l: Labels)
      modifies this
      ensures cells == Incremented(old(cells), l)
      ensures Value(l) == old(Value(l)) + 1
      ensures forall l' :: l' != l ==> Value(l') == old(Value(l'))
    {
      cells := Incremented(cells, l);
    }
  }
}
