/**
  The callback data of the /list keyboard: the buttons carry strings
  list_{page}_{sort_by} (lines 166-175), and handle_callback splits the data
  of a pressed button on '_' and reads the action, the page and the sort key
  from its first three parts (lines 183-187).
 */
module CallbackData {
  import opened Text

  /** The string f"list_{page}_{sort_by}". */
  function ListCallback(page: int, sortBy: string): (data: string)
    ensures |data| > 5 && data[..5] == "list_"
  {
    var data := "list_" + IntToString(page) + "_" + sortBy;
    assert data[..5] == ("list_" + IntToString(page))[..5];
    data
  }

  /** The callback data of the four buttons under a token list. */
  datatype PageButtons = PageButtons(previous: string, next: string, byValue: string, byDate: string)

  function Buttons(page: int, sortBy: string): PageButtons {
    PageButtons(
      ListCallback(page - 1, sortBy),
      ListCallback(page + 1, sortBy),
      ListCallback(page, "value"),
      ListCallback(page, "date"))
  }

  /** The exceptions handle_callback can raise while reading the data: data[i] past the end, or int() refusing. */
  datatype ParseError = IndexError | ValueError

  /** What handle_callback reads from the data: a list request, nothing (another action), or an exception. */
  datatype Callback =
    | ListPage(page: int, sortBy: string)
    | NotList
    | Raised(error: ParseError)

  /**
    handle_callback's reading of the data: it cuts the data at every '_'.
    Data whose first part is not "list" is some other action. Otherwise the
    second part must be an integer numeral, the page, and the third part is
    the sort key; a missing part or a bad numeral raises, in that order.
    Parts after the third are ignored.
   */
  function ParseCallback(data: string): (c: Callback)
    ensures c.Raised? ==> Split(data, '_')[0] == "list"
    ensures c.ListPage? ==> |Split(data, '_')| >= 3 && '_' !in c.sortBy
  {
    var parts := Split(data, '_');
    if parts[0] != "list" then NotList
    else if |parts| < 2 then Raised(IndexError)
    else
      match ParseInt(parts[1])
      case None => Raised(ValueError)
      case Some(page) =>
        if |parts| < 3 then Raised(IndexError) else ListPage(page, parts[2])
  }

  lemma IntToStringHasNoUnderscore(n: int)
    ensures '_' !in IntToString(n)
  {
    var digits := NatToString(if n < 0 then -n else n);
    assert forall i :: 0 <= i < |digits| ==> digits[i] != '_';
  }

  /** The data splits into "list", the page's numeral, and the parts of the sort key. */
  lemma SplitListCallback(page: int, sortBy: string)
    ensures Split(ListCallback(page, sortBy), '_') == ["list", IntToString(page)] + Split(sortBy, '_')
  {
    IntToStringHasNoUnderscore(page);
    var numeral := IntToString(page);
    assert ListCallback(page, sortBy) == "list" + ['_'] + (numeral + ['_'] + sortBy);
    SplitAtFirst("list", numeral + ['_'] + sortBy, '_');
    SplitAtFirst(numeral, sortBy, '_');
  }

  /** Reading back the data of a list button gives its page and sort key, for any sort key without '_'. */
  lemma ParseListCallback(page: int, sortBy: string)
    requires '_' !in sortBy
    ensures ParseCallback(ListCallback(page, sortBy)) == ListPage(page, sortBy)
  {
    SplitListCallback(page, sortBy);
    SplitWithoutSeparator(sortBy, '_');
    ParseIntOfIntToString(page);
  }

  /** A sort key holding '_' comes back cut at its first '_'. */
  lemma ParseListCallbackCutsSortKey(page: int, sortBy: string)
    ensures ParseCallback(ListCallback(page, sortBy)) == ListPage(page, Split(sortBy, '_')[0])
  {
    SplitListCallback(page, sortBy);
    ParseIntOfIntToString(page);
  }

  /** Previous and Next ask for the neighbouring pages with the same sort key. */
  lemma PageButtonsStep(page: int, sortBy: string)
    requires '_' !in sortBy
    ensures ParseCallback(Buttons(page, sortBy).previous) == ListPage(page - 1, sortBy)
    ensures ParseCallback(Buttons(page, sortBy).next) == ListPage(page + 1, sortBy)
  {
    ParseListCallback(page - 1, sortBy);
    ParseListCallback(page + 1, sortBy);
  }

  /** The two sort buttons keep the page and choose 'value' or 'date', whatever the current sort key. */
  lemma SortButtonsKeepPage(page: int, sortBy: string)
    ensures ParseCallback(Buttons(page, sortBy).byValue) == ListPage(page, "value")
    ensures ParseCallback(Buttons(page, sortBy).byDate) == ListPage(page, "date")
  {
    ParseListCallback(page, "value");
    ParseListCallback(page, "date");
  }

  lemma FirstPartListShape(data: string)
    requires Split(data, '_')[0] == "list"
    ensures data == "list" || (|data| >= 5 && data[..5] == "list_")
  {
    var parts := Split(data, '_');
    JoinOfSplit(data, '_');
    if |parts| > 1 {
      var rest := Join(parts[1..], '_');
      assert data == "list" + ['_'] + rest;
      assert data[..5] == "list_";
    }
  }

  lemma ListShapeFirstPart(data: string)
    requires data == "list" || (|data| >= 5 && data[..5] == "list_")
    ensures Split(data, '_')[0] == "list"
  {
    var list := "list";
    assert '_' !in list;
    if data == list {
      SplitWithoutSeparator(list, '_');
    } else {
      ListPrefixedFirstPart(list, data);
    }
  }

  lemma ListPrefixedFirstPart(x: string, data: string)
    requires '_' !in x
    requires |data| > |x| && data[..|x| + 1] == x + ['_']
    ensures Split(data, '_')[0] == x
  {
    var rest := data[|x| + 1..];
    assert data == x + ['_'] + rest;
    SplitAtFirst(x, rest, '_');
  }

  /** The first part of a split is "list" exactly when the data is "list" or starts with "list_". */
  lemma FirstPartIsList(data: string)
    ensures Split(data, '_')[0] == "list" <==> data == "list" || (|data| >= 5 && data[..5] == "list_")
  {
    if Split(data, '_')[0] == "list" {
      FirstPartListShape(data);
    }
    if data == "list" || (|data| >= 5 && data[..5] == "list_") {
      ListShapeFirstPart(data);
    }
  }

  /** handle_callback ignores the data exactly when it neither is "list" nor starts with "list_". */
  lemma NotListIff(data: string)
    ensures ParseCallback(data).NotList? <==> data != "list" && !(|data| >= 5 && data[..5] == "list_")
  {
    FirstPartIsList(data);
  }
}
