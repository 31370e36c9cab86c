/**
 * The records the viewer shows and the per-district map objects built for
 * them: a polygon drawn from the first ring of each record and its
 * information window.
 */
module Districts {

  /** A coordinate pair `[lng, lat]` of a ring. */
  datatype Point = Point(lng: real, lat: real)

  type Ring = seq<Point>

  /** A record as it arrives in the dataset file, before ids are assigned. */
  datatype Feature = Feature(name: string, county: string, polylines: seq<Ring>)

  /** A record after loading: `id` is its 0-based position in the dataset. */
  datatype District = District(id: nat, name: string, county: string, polylines: seq<Ring>)

  /** The two style objects `setStyle` is called with. */
  datatype Style = DefaultStyle | SelectedStyle

  /** A polygon overlay: the ring it was built from and its current style. */
  datatype Polygon = Polygon(ring: Ring, style: Style)

  /** `area.polylines && area.polylines.length > 0 && area.polylines[0].length > 0` */
  predicate HasRing(polylines: seq<Ring>)
  {
    |polylines| > 0 && |polylines[0]| > 0
  }

  /** The information window's HTML content: the name in bold, the county below. */
  function InfoContent(name: string, county: string): string
  {
    "<b>" + name + "</b><br>(" + county + ")"
  }

  /** The text of a list row: `name (county)`. */
  function RowText(d: District): string
  {
    d.name + " (" + d.county + ")"
  }

  /** The county of every record, in order; what the histogram is built from. */
  function CountiesOf(fs: seq<Feature>): (cs: seq<string>)
    ensures |cs| == |fs| && forall i :: 0 <= i < |fs| ==> cs[i] == fs[i].county
  {
    seq(|fs|, i requires 0 <= i < |fs| => fs[i].county)
  }
}
