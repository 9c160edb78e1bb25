/** View options: the filters a rendered trace applies and the argument format. */
module Views {
  import opened Reflection
  import opened Arguments
  import opened Frames
  import opened Filters

  datatype ViewOptions = ViewOptions(filters: seq<Filter>, argumentFormat: ArgumentFormat)

  /** `new ViewOptions()`: no filters, arguments as a count. */
  function Default(): (r: ViewOptions)
    ensures |r.filters| == 0 && r.argumentFormat == Count
  {
    ViewOptions([], Count)
  }

  /** `filter($frame)`: the loop that stops at the first filter rejecting the frame. */
  function Filter(options: ViewOptions, frame: Frame, rt: Runtime): (r: bool)
    ensures r <==> forall i :: 0 <= i < |options.filters| ==> Accepts(options.filters[i], frame, rt)
    ensures |options.filters| == 0 ==> r
    decreases |options.filters|
  {
    if |options.filters| == 0 then true
    else Accepts(options.filters[0], frame, rt) &&
         Filter(options.(filters := options.filters[1..]), frame, rt)
  }

  /** Adding a filter never lets a rejected frame through, and a frame passes the
      longer list exactly when it passes the shorter one and the new filter. */
  lemma AddingFilterNarrows(options: ViewOptions, f: Filters.Filter, frame: Frame, rt: Runtime)
    ensures Filter(options.(filters := options.filters + [f]), frame, rt) <==>
              Filter(options, frame, rt) && Accepts(f, frame, rt)
    ensures !Filter(options, frame, rt) ==> !Filter(options.(filters := options.filters + [f]), frame, rt)
  {
    var longer := options.filters + [f];
    assert longer[|options.filters|] == f;
    if Filter(options, frame, rt) && Accepts(f, frame, rt) {
      forall i | 0 <= i < |longer| ensures Accepts(longer[i], frame, rt) {
        if i < |options.filters| {
          assert longer[i] == options.filters[i];
        }
      }
    }
    if Filter(options.(filters := longer), frame, rt) {
      forall i | 0 <= i < |options.filters| ensures Accepts(options.filters[i], frame, rt) {
        assert longer[i] == options.filters[i];
      }
    }
  }

  /** The order and repetitions of the filters do not matter. */
  lemma FilterOrderIrrelevant(a: ViewOptions, b: ViewOptions, frame: Frame, rt: Runtime)
    requires forall f :: f in a.filters <==> f in b.filters
    ensures Filter(a, frame, rt) == Filter(b, frame, rt)
  {
    if Filter(a, frame, rt) {
      forall i | 0 <= i < |b.filters| ensures Accepts(b.filters[i], frame, rt) {
        assert b.filters[i] in a.filters;
        var k :| 0 <= k < |a.filters| && a.filters[k] == b.filters[i];
      }
    }
    if Filter(b, frame, rt) {
      forall i | 0 <= i < |a.filters| ensures Accepts(a.filters[i], frame, rt) {
        assert a.filters[i] in b.filters;
        var k :| 0 <= k < |b.filters| && b.filters[k] == a.filters[i];
      }
    }
  }
}
