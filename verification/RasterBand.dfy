/** A raster band as the algorithms see it: read and written one line at a time. */
module RasterBands {
  import opened Connectivity
  import opened Wrappers

  class RasterBand {
    const xSize: nat
    var lines: seq<seq<int>>

    ghost predicate Valid()
      reads this
    {
      forall y :: 0 <= y < |lines| ==> |lines[y]| == xSize
    }

    constructor (xSize: nat, lines: seq<seq<int>>)
      requires forall y :: 0 <= y < |lines| ==> |lines[y]| == xSize
      ensures Valid() && this.xSize == xSize && this.lines == lines
    {
      this.xSize, this.lines := xSize, lines;
    }

    method ReadLine(row: nat) returns (line: seq<int>)
      requires row < |lines|
      ensures line == lines[row]
    {
      line := lines[row];
    }

    method WriteLine(row: nat, line: seq<int>)
      requires row < |lines| && |line| == xSize && Valid()
      modifies this
      ensures Valid() && lines == old(lines)[row := line]
    {
      lines := lines[row := line];
    }
  }

  /** A line with its masked-out pixels marked. */
  function MaskedLine<T>(line: seq<T>, maskLine: seq<int>, nodata: T): (r: seq<T>)
    requires |line| == |maskLine|
    ensures |r| == |line|
  {
    seq(|line|, i requires 0 <= i < |line| => if maskLine[i] == 0 then nodata else line[i])
  }

  /** A raster as the enumerators are fed it. */
  function Masked<T>(lines: seq<seq<T>>, mask: Option<seq<seq<int>>>, nodata: T): (r: seq<seq<T>>)
    requires mask.Some? ==> SameShape(lines, mask.value)
    ensures SameShape(lines, r)
  {
    match mask
    case None => lines
    case Some(m) => seq(|lines|, y requires 0 <= y < |lines| => MaskedLine(lines[y], m[y], nodata))
  }

  method GPMaskImageData<T>(maskValues: seq<int>, imageLine: seq<T>, nodata: T) returns (line: seq<T>)
    requires |maskValues| == |imageLine|
    ensures line == MaskedLine(imageLine, maskValues, nodata)
  {
    line := imageLine;
    for i := 0 to |line|
      invariant |line| == |imageLine|
      invariant forall j :: 0 <= j < |line| ==>
                  line[j] == if j < i && maskValues[j] == 0 then nodata else imageLine[j]
    {
      if maskValues[i] == 0 {
        line := line[i := nodata];
      }
    }
  }
}
