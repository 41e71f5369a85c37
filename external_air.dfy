/** `mask_external_air`: median-filter the volume, threshold it at half of
    Otsu's value, and keep the below-threshold voxels connected to a side
    plane. The median filter and Otsu's method are library calls; they are
    parameters here. */
module ExternalAir {
  import opened Grids
  import opened SideFaces

  /** The three values `mask_external_air` returns. */
  datatype AirMasking = AirMasking(mask: Grid<bool>, filtered: Grid<real>, threshold: real)

  /** The raw mask `A < threshold`, element by element. */
  function Below(a: Grid<real>, t: real): (m: Grid<bool>)
    requires a.Valid()
    ensures m.Valid() && m.SameShape(a)
    ensures forall v :: m.InBounds(v) ==> (m.At(v) <==> a.At(v) < t)
  {
    Tabulate(a.n0, a.n1, a.n2, v => a.InBounds(v) && a.At(v) < t)
  }

  /** `mask_external_air(imageData, median_filter_size, arrayName)`, with
      `medianFilter` standing for the median filter of the chosen size
      followed by reading the named channel, and `otsu` for
      `threshold_otsu`. */
  method MaskExternalAir(volume: Grid<real>, medianFilter: Grid<real> -> Grid<real>, otsu: Grid<real> -> real)
    returns (out: AirMasking)
    requires medianFilter(volume).Valid()
    ensures out.filtered == medianFilter(volume)
    ensures out.threshold == otsu(out.filtered) * 0.5
    ensures out.mask == Retained(Below(out.filtered, out.threshold))
    ensures out.mask.Valid() && out.mask.SameShape(out.filtered)
    ensures forall v :: out.mask.InBounds(v) && out.mask.At(v) ==> out.filtered.At(v) < out.threshold
  {
    var filtered := medianFilter(volume);
    var threshold := otsu(filtered) * 0.5;
    var mask := KeepComponentsTouchingSideFaces(Below(filtered, threshold));
    out := AirMasking(mask, filtered, threshold);
  }

  /** Voxels at or above the threshold are never marked as external air, and
      below-threshold voxels on a side plane always are. */
  lemma AirMaskBounds(a: Grid<real>, t: real, v: Voxel)
    requires a.Valid() && a.InBounds(v)
    ensures Retained(Below(a, t)).At(v) ==> a.At(v) < t
    ensures a.At(v) < t && OnSidePlane(a, v) ==> Retained(Below(a, t)).At(v)
  {
    var m := Below(a, t);
    if a.At(v) < t && OnSidePlane(a, v) {
      SideVoxelRetained(m, v);
    }
  }
}
