// The extraction and filtering step of `excel_vers_csv` (fourth.py:76-81,
// 89): look up the four labelled blocks, keep only the valid IPv4 addresses
// among the values under "IP", and build the record set from the four lists.

module Converter {
  import opened Cells
  import opened Sequences
  import opened IPv4
  import opened Extractor
  import opened Aligner
  import opened Writer

  /** The labels the converter looks for (fourth.py:78-81). */
  const SourceLabel: string := "IP"
  const ServiceLabel: string := "Service/Port Destination"
  const DestinationLabel: string := "Destination"
  const ActionLabel: string := "Action"

  /** The test of the comprehension at fourth.py:78: `est_adresse_ip_valide`
      on the value's `str()`. */
  predicate IsAddressCell(c: Cell)
  {
    IsValidAddress(CellToString(c))
  }

  /** `sources` of fourth.py:78: the values under "IP" that are addresses,
      in their order. */
  function Sources(grid: Grid): (sources: seq<Cell>)
    requires Rectangular(grid)
    ensures forall i :: 0 <= i < |sources| ==> IsAddressCell(sources[i]) && IsPresent(sources[i])
  {
    Filter(IsAddressCell, Extract(grid, SourceLabel))
  }

  /** The record set `excel_vers_csv` hands to the CSV writer for a sheet. */
  function Convert(grid: Grid): seq<Column>
    requires Rectangular(grid)
  {
    RecordSet(Sources(grid), Extract(grid, ServiceLabel), Extract(grid, DestinationLabel), Extract(grid, ActionLabel))
  }

  /** `excel_vers_csv` from the loaded sheet up to the call of `ecrire_csv`. */
  method ConvertSheet(grid: Grid) returns (records: seq<Column>)
    requires Rectangular(grid)
    ensures records == Convert(grid)
  {
    var extracted := ExtractColumn(grid, SourceLabel);
    var sources := Filter(IsAddressCell, extracted);
    var services := ExtractColumn(grid, ServiceLabel);
    var destinations := ExtractColumn(grid, DestinationLabel);
    var actions := ExtractColumn(grid, ActionLabel);
    records := BuildRecordSet(sources, services, destinations, actions);
  }

  /** The Source list is exactly the values under "IP" that are addresses:
      the `i`-th is the extracted value at `KeptPositions[i]`, those positions
      increase, and every extracted value that is an address is among them. */
  lemma SourcesAreValidAddressesUnderIP(grid: Grid)
    requires Rectangular(grid)
    ensures var extracted, kept := Extract(grid, SourceLabel), KeptPositions(IsAddressCell, Extract(grid, SourceLabel));
            && |Sources(grid)| == |kept|
            && (forall i :: 0 <= i < |kept| ==> Sources(grid)[i] == extracted[kept[i]])
            && (forall i, j :: 0 <= i < j < |kept| ==> kept[i] < kept[j])
            && (forall k :: 0 <= k < |extracted| && IsAddressCell(extracted[k]) ==> k in kept)
  {
    FilterIsSelection(IsAddressCell, Extract(grid, SourceLabel));
  }

  /** The converted sheet has the nine headers in order and columns of equal
      length; the Source column holds the valid addresses under "IP" and then
      '' only; Service, Destination and Action hold the values under their
      labels, unfiltered, then '' only; the five other columns are all ''. */
  lemma ConvertShape(grid: Grid)
    requires Rectangular(grid)
    ensures var records := Convert(grid);
            var height := MaxLength([Sources(grid), Extract(grid, ServiceLabel),
                                     Extract(grid, DestinationLabel), Extract(grid, ActionLabel)]);
            && Names(records) == Headers
            && (forall i :: 0 <= i < |records| ==> |records[i].values| == height)
            && |Sources(grid)| <= height && |Extract(grid, ServiceLabel)| <= height
            && |Extract(grid, DestinationLabel)| <= height && |Extract(grid, ActionLabel)| <= height
            && records[0].values == Sources(grid) + Padding(height - |Sources(grid)|)
            && records[4].values == Extract(grid, ServiceLabel) + Padding(height - |Extract(grid, ServiceLabel)|)
            && records[2].values == Extract(grid, DestinationLabel) + Padding(height - |Extract(grid, DestinationLabel)|)
            && records[8].values == Extract(grid, ActionLabel) + Padding(height - |Extract(grid, ActionLabel)|)
            && (forall i :: i in {1, 3, 5, 6, 7} ==> records[i].values == Padding(height))
  {
    var sources, services := Sources(grid), Extract(grid, ServiceLabel);
    var destinations, actions := Extract(grid, DestinationLabel), Extract(grid, ActionLabel);
    assert Convert(grid) == RecordSet(sources, services, destinations, actions);
    RecordSetShape(sources, services, destinations, actions);
  }

  /** Every value in the Source column is a valid address or the padding ''. */
  lemma SourceColumnHoldsAddresses(grid: Grid)
    requires Rectangular(grid)
    ensures forall k :: 0 <= k < |Convert(grid)[0].values| ==>
              IsAddressCell(Convert(grid)[0].values[k]) || Convert(grid)[0].values[k] == Blank
  {
    ConvertShape(grid);
    var sources := Sources(grid);
    var column := Convert(grid)[0].values;
    forall k | 0 <= k < |column| ensures IsAddressCell(column[k]) || column[k] == Blank {
      if k < |sources| {
        assert column[k] == sources[k];
      }
    }
  }
}
