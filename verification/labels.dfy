/** The label and output-file listings of the text, CSV, TSV and HTML
    formatters: one record per label, joined with the format's separator. */
module Labels {
  import opened Results
  import opened Strings

  /** The parts of a record these listings read. */
  datatype Record = Record(recordLabel: string, outputPaths: seq<string>)

  /** The three plain formats and the character each joins with. */
  datatype PlainFormat = TextFormat | CsvFormat | TsvFormat
  {
    function Separator(): char
    {
      match this
      case TextFormat => '\n'
      case CsvFormat => ';'
      case TsvFormat => '\t'
    }
  }

  function LabelsOf(records: seq<Record>): (r: seq<string>)
    ensures |r| == |records|
    ensures forall i :: 0 <= i < |records| ==> r[i] == records[i].recordLabel
  {
    seq(|records|, i requires 0 <= i < |records| => records[i].recordLabel)
  }

  /** `short()` of the text, CSV and TSV formatters. */
  function Short(f: PlainFormat, records: seq<Record>): string
  {
    Join([f.Separator()], LabelsOf(records))
  }

  /** Splitting the listing on the separator gives the labels back, in
      order, when there is at least one record and no label holds the
      separator. */
  lemma ShortSplits(f: PlainFormat, records: seq<Record>)
    requires |records| > 0
    requires forall i :: 0 <= i < |records| ==> f.Separator() !in records[i].recordLabel
    ensures Split(Short(f, records), f.Separator()) == LabelsOf(records)
  {
    SplitJoin(LabelsOf(records), f.Separator());
  }

  /** The listing is empty exactly when there are no records or the only
      record has an empty label; so a single empty label and no records at
      all cannot be told apart. */
  lemma ShortEmpty(f: PlainFormat, records: seq<Record>)
    ensures Short(f, records) == "" <==> |records| == 0 || (|records| == 1 && records[0].recordLabel == "")
  {
    var ls := LabelsOf(records);
    if |records| > 1 {
      assert |Short(f, records)| >= 1 by {
        assert Short(f, records) == ls[0] + [f.Separator()] + Join([f.Separator()], ls[1..]);
      }
    }
  }

  // --------------------------------------------------------------- HTML

  const ItemSeparator := "</li>\n<li>"

  /** `HTMLFormatter.short()`. */
  function HtmlShort(records: seq<Record>): string
  {
    "<ul>\n<li>" + Join(ItemSeparator, LabelsOf(records)) + "</li>\n</ul>"
  }

  /** One list item per label, each on its own line. */
  function Items(labels: seq<string>): string
  {
    if |labels| == 0 then "" else "<li>" + labels[0] + "</li>\n" + Items(labels[1..])
  }

  lemma {:induction false} JoinedItems(labels: seq<string>)
    requires |labels| > 0
    ensures "<li>" + Join(ItemSeparator, labels) + "</li>\n" == Items(labels)
    decreases |labels|
  {
    if |labels| == 1 {
      assert labels[1..] == [];
    } else {
      var rest := Join(ItemSeparator, labels[1..]);
      JoinedItems(labels[1..]);
      calc {
        "<li>" + Join(ItemSeparator, labels) + "</li>\n";
        "<li>" + (labels[0] + ItemSeparator + rest) + "</li>\n";
        ("<li>" + labels[0] + "</li>\n") + ("<li>" + rest + "</li>\n");
        ("<li>" + labels[0] + "</li>\n") + Items(labels[1..]);
      }
    }
  }

  /** With at least one record the fragment is a `<ul>` holding one `<li>`
      line per label, in order. */
  lemma HtmlShortIsList(records: seq<Record>)
    requires |records| > 0
    ensures HtmlShort(records) == "<ul>\n" + Items(LabelsOf(records)) + "</ul>"
  {
    JoinedItems(LabelsOf(records));
    var j := Join(ItemSeparator, LabelsOf(records));
    assert "<ul>\n<li>" + j + "</li>\n</ul>" == "<ul>\n" + ("<li>" + j + "</li>\n") + "</ul>";
  }

  /** With no records the fragment still holds one empty item. */
  lemma HtmlShortOfNothing(records: seq<Record>)
    requires |records| == 0
    ensures HtmlShort(records) == "<ul>\n<li></li>\n</ul>"
  {
  }

  // ------------------------------------------------------- output files

  /** Why `output_files()` fails. */
  datatype ReduceError = EmptySequenceNoInitialValue

  /** `reduce(operator.add, lists)`: the lists added up from the left; an
      empty sequence with no initial value is an error. */
  function ReduceAdd(lists: seq<seq<string>>): Result<seq<string>, ReduceError>
  {
    if |lists| == 0 then Err(EmptySequenceNoInitialValue)
    else if |lists| == 1 then Ok(lists[0])
    else
      match ReduceAdd(lists[..|lists| - 1])
      case Ok(acc) => Ok(acc + lists[|lists| - 1])
      case Err(e) => Err(e)
  }

  /** The lists one after another. */
  function Flatten(lists: seq<seq<string>>): seq<string>
  {
    if |lists| == 0 then [] else lists[0] + Flatten(lists[1..])
  }

  lemma {:induction false} FlattenAppendOne(lists: seq<seq<string>>, last: seq<string>)
    ensures Flatten(lists + [last]) == Flatten(lists) + last
    decreases |lists|
  {
    if |lists| == 0 {
      assert [last][1..] == [];
    } else {
      assert (lists + [last])[1..] == lists[1..] + [last];
      FlattenAppendOne(lists[1..], last);
    }
  }

  /** Adding up from the left gives the plain concatenation: `reduce` fails
      only on no records, and otherwise keeps every path in order. */
  lemma {:induction false} ReduceAddFlattens(lists: seq<seq<string>>)
    ensures ReduceAdd(lists).Err? <==> |lists| == 0
    ensures |lists| > 0 ==> ReduceAdd(lists) == Ok(Flatten(lists))
    decreases |lists|
  {
    if |lists| == 1 {
      assert lists[1..] == [];
      assert lists[0] + [] == lists[0];
    } else if |lists| > 1 {
      var init := lists[..|lists| - 1];
      ReduceAddFlattens(init);
      FlattenAppendOne(init, lists[|lists| - 1]);
      assert init + [lists[|lists| - 1]] == lists;
    }
  }

  function PathLists(records: seq<Record>): (r: seq<seq<string>>)
    ensures |r| == |records|
    ensures forall i :: 0 <= i < |records| ==> r[i] == records[i].outputPaths
  {
    seq(|records|, i requires 0 <= i < |records| => records[i].outputPaths)
  }

  /** `output_files()` of the text, CSV and TSV formatters. */
  function OutputFiles(f: PlainFormat, records: seq<Record>): Result<string, ReduceError>
  {
    match ReduceAdd(PathLists(records))
    case Ok(paths) => Ok(Join([f.Separator()], paths))
    case Err(e) => Err(e)
  }

  /** `output_files()` fails exactly on an empty record list; otherwise
      splitting its result on the separator gives every output path of every
      record, record by record, when there is at least one path and none
      holds the separator. */
  lemma OutputFilesListsPaths(f: PlainFormat, records: seq<Record>)
    ensures OutputFiles(f, records).Err? <==> |records| == 0
    ensures |records| > 0 ==> OutputFiles(f, records) == Ok(Join([f.Separator()], Flatten(PathLists(records))))
    ensures |records| > 0 && |Flatten(PathLists(records))| > 0
            && (forall p :: p in Flatten(PathLists(records)) ==> f.Separator() !in p)
            ==> Split(OutputFiles(f, records).value, f.Separator()) == Flatten(PathLists(records))
  {
    ReduceAddFlattens(PathLists(records));
    var all := Flatten(PathLists(records));
    if |records| > 0 && |all| > 0 && (forall p :: p in all ==> f.Separator() !in p) {
      assert forall i :: 0 <= i < |all| ==> all[i] in all;
      SplitJoin(all, f.Separator());
    }
  }
}
