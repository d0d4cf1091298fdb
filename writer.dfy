// The record set `ecrire_csv` builds before serialising it (fourth.py:44-67):
// the four field lists are aligned and named, the other five of the nine
// fixed headers are added as columns of '', and the columns are put in the
// fixed header order.

module Writer {
  import opened Cells
  import opened Aligner

  /** The output columns, in output order (fourth.py:44-45). */
  const Headers: seq<string> :=
    ["Source", "Source NAT", "Destination", "Destination NAT",
     "Service", "Description", "User", "Application", "Action"]

  /** One named column of a data frame. */
  datatype Column = Column(name: string, values: seq<Cell>)

  /** `df.columns`, in order. */
  function Names(frame: seq<Column>): seq<string>
  {
    seq(|frame|, i requires 0 <= i < |frame| => frame[i].name)
  }

  /** `df[name]` for a name the frame has: the values of its column. */
  function Lookup(frame: seq<Column>, name: string): seq<Cell>
    requires name in Names(frame)
    decreases |frame|
  {
    if frame[0].name == name then frame[0].values
    else
      assert Names(frame) == [frame[0].name] + Names(frame[1..]);
      Lookup(frame[1..], name)
  }

  /** `df[names]`: the frame's columns with these names, in this order. */
  function Select(frame: seq<Column>, names: seq<string>): seq<Column>
    requires forall i :: 0 <= i < |names| ==> names[i] in Names(frame)
  {
    seq(|names|, i requires 0 <= i < |names| => Column(names[i], Lookup(frame, names[i])))
  }

  /** The column the converter writes under `name`, given the four aligned
      field lists (Source, Service, Destination, Action) and their common
      length: a field list for those four names, '' everywhere for the others. */
  function FieldColumn(name: string, aligned: seq<seq<Cell>>, height: nat): seq<Cell>
    requires |aligned| == 4
  {
    if name == "Source" then aligned[0]
    else if name == "Service" then aligned[1]
    else if name == "Destination" then aligned[2]
    else if name == "Action" then aligned[3]
    else Padding(height)
  }

  /** The record set `ecrire_csv` writes for the four field lists. */
  function RecordSet(sources: seq<Cell>, services: seq<Cell>, destinations: seq<Cell>, actions: seq<Cell>)
    : (records: seq<Column>)
    ensures Names(records) == Headers
  {
    var fields := [sources, services, destinations, actions];
    var aligned := Align(fields);
    seq(|Headers|, i requires 0 <= i < |Headers| => Column(Headers[i], FieldColumn(Headers[i], aligned, MaxLength(fields))))
  }

  /** Adding a column with a new name leaves the existing columns' lookups as
      they were and makes the new one reachable. */
  lemma {:induction false} LookupAppend(frame: seq<Column>, column: Column, name: string)
    requires name in Names(frame + [column])
    ensures name in Names(frame) || name == column.name
    ensures Lookup(frame + [column], name) ==
              if name in Names(frame) then Lookup(frame, name) else column.values
    decreases |frame|
  {
    assert Names(frame + [column]) == Names(frame) + [column.name];
    if |frame| == 0 {
      assert frame + [column] == [column];
    } else if frame[0].name == name {
      assert (frame + [column])[0] == frame[0];
      assert Names(frame)[0] == name;
    } else {
      assert (frame + [column])[1..] == frame[1..] + [column];
      assert Names(frame) == [frame[0].name] + Names(frame[1..]);
      assert Names(frame[1..] + [column]) == Names(frame[1..]) + [column.name];
      LookupAppend(frame[1..], column, name);
    }
  }

  /** The record set has the nine headers in the fixed order; every column is
      as long as the longest of the four field lists; Source, Service,
      Destination and Action hold their list followed by '' only; the five
      other columns hold '' only. */
  lemma RecordSetShape(sources: seq<Cell>, services: seq<Cell>, destinations: seq<Cell>, actions: seq<Cell>)
    ensures var records, height := RecordSet(sources, services, destinations, actions),
                                   MaxLength([sources, services, destinations, actions]);
            && Names(records) == Headers
            && |sources| <= height && |services| <= height && |destinations| <= height && |actions| <= height
            && (|sources| == height || |services| == height || |destinations| == height || |actions| == height)
            && (forall i :: 0 <= i < |records| ==> |records[i].values| == height)
            && records[0].values == sources + Padding(height - |sources|)
            && records[4].values == services + Padding(height - |services|)
            && records[2].values == destinations + Padding(height - |destinations|)
            && records[8].values == actions + Padding(height - |actions|)
            && (forall i :: i in {1, 3, 5, 6, 7} ==> records[i].values == Padding(height))
  {
    var fields := [sources, services, destinations, actions];
    var aligned := Align(fields);
    var height := MaxLength(fields);
    var records := RecordSet(sources, services, destinations, actions);
    assert |fields[0]| <= height && |fields[1]| <= height && |fields[2]| <= height && |fields[3]| <= height;
    forall i | 0 <= i < 4 ensures aligned[i] == fields[i] + Padding(height - |fields[i]|) {
      assert aligned[i] == aligned[i][..|fields[i]|] + aligned[i][|fields[i]|..];
    }
  }

  /** `pd.DataFrame(data)` for the dictionary of fourth.py:51-56: one column
      per field list, in the dictionary's order. */
  function FieldFrame(aligned: seq<seq<Cell>>): seq<Column>
    requires |aligned| == 4
  {
    [Column("Source", aligned[0]), Column("Service", aligned[1]),
     Column("Destination", aligned[2]), Column("Action", aligned[3])]
  }

  /** The frame built from the dictionary has the four field names, and each
      holds the field list of that name. */
  lemma FieldFrameLookup(aligned: seq<seq<Cell>>, height: nat)
    requires |aligned| == 4
    ensures Names(FieldFrame(aligned)) == ["Source", "Service", "Destination", "Action"]
    ensures HoldsFields(FieldFrame(aligned), aligned, height)
  {
    var frame := FieldFrame(aligned);
    assert Names(frame) == ["Source", "Service", "Destination", "Action"];
    forall name | name in Names(frame) ensures Lookup(frame, name) == FieldColumn(name, aligned, height) {
      assert Names(frame[1..]) == ["Service", "Destination", "Action"];
      assert Names(frame[1..][1..]) == ["Destination", "Action"];
      assert Names(frame[1..][1..][1..]) == ["Action"];
      if name != "Source" {
        assert Lookup(frame, name) == Lookup(frame[1..], name);
        if name != "Service" {
          assert Lookup(frame[1..], name) == Lookup(frame[1..][1..], name);
          if name != "Destination" {
            assert Lookup(frame[1..][1..], name) == Lookup(frame[1..][1..][1..], name);
          }
        }
      }
    }
  }

  /** Every column of `frame` holds what the converter writes under its name. */
  predicate HoldsFields(frame: seq<Column>, aligned: seq<seq<Cell>>, height: nat)
    requires |aligned| == 4
  {
    forall name :: name in Names(frame) ==> Lookup(frame, name) == FieldColumn(name, aligned, height)
  }

  /** `df[header] = ''` for a header the frame lacks keeps `HoldsFields`,
      since the four field names are already there. */
  lemma AddBlankColumn(frame: seq<Column>, aligned: seq<seq<Cell>>, height: nat, header: string)
    requires |aligned| == 4 && HoldsFields(frame, aligned, height)
    requires "Source" in Names(frame) && "Service" in Names(frame)
    requires "Destination" in Names(frame) && "Action" in Names(frame)
    requires header !in Names(frame)
    ensures Names(frame + [Column(header, Padding(height))]) == Names(frame) + [header]
    ensures HoldsFields(frame + [Column(header, Padding(height))], aligned, height)
  {
    var column := Column(header, Padding(height));
    assert Names(frame + [column]) == Names(frame) + [header];
    forall name | name in Names(frame + [column])
      ensures Lookup(frame + [column], name) == FieldColumn(name, aligned, height)
    {
      LookupAppend(frame, column, name);
    }
  }

  /** Reordering a frame that has every header and holds the fields gives the
      record set. */
  lemma SelectHeaders(frame: seq<Column>, sources: seq<Cell>, services: seq<Cell>, destinations: seq<Cell>, actions: seq<Cell>)
    requires forall j :: 0 <= j < |Headers| ==> Headers[j] in Names(frame)
    requires HoldsFields(frame, Align([sources, services, destinations, actions]),
                         MaxLength([sources, services, destinations, actions]))
    ensures Select(frame, Headers) == RecordSet(sources, services, destinations, actions)
  {
  }

  /** The column-building part of `ecrire_csv`: align the four lists, build a
      frame from them, add every missing header as a column of '', then
      reorder the columns by the header list. */
  method BuildRecordSet(sources: seq<Cell>, services: seq<Cell>, destinations: seq<Cell>, actions: seq<Cell>)
    returns (records: seq<Column>)
    ensures records == RecordSet(sources, services, destinations, actions)
  {
    var fields := [sources, services, destinations, actions];
    var aligned := Align(fields);
    var height := MaxLength(fields);
    var frame := FieldFrame(aligned);
    FieldFrameLookup(aligned, height);
    for i := 0 to |Headers|
      invariant "Source" in Names(frame) && "Service" in Names(frame)
      invariant "Destination" in Names(frame) && "Action" in Names(frame)
      invariant forall j :: 0 <= j < i ==> Headers[j] in Names(frame)
      invariant HoldsFields(frame, aligned, height)
    {
      if Headers[i] !in Names(frame) {
        AddBlankColumn(frame, aligned, height, Headers[i]);
        frame := frame + [Column(Headers[i], Padding(height))];
      }
    }
    SelectHeaders(frame, sources, services, destinations, actions);
    records := Select(frame, Headers);
  }
}
