/** The header's file menu: the user's stored files turned into menu
    items, grouped under the day each was created, and the current file
    name shortened for the menu button. */
module FilesDropdown {
  import opened Common

  /** A stored file as the query returns it, and the row that wraps it. */
  datatype StoredFile = StoredFile(id: string, filename: string, createdAt: string)
  datatype FileRow = FileRow(files: StoredFile)

  /** A menu entry. */
  datatype MenuItem = MenuItem(name: string, uuid: string, createdAt: string)

  // ---------------------------------------------------------------------
  // Formatting

  function FormatFile(row: FileRow): (item: MenuItem)
  {
    MenuItem(row.files.filename, row.files.id, row.files.createdAt)
  }

  /** `files.map(...)`: one menu item per row, in row order. */
  function FormatFiles(rows: seq<FileRow>): (items: seq<MenuItem>)
    ensures |items| == |rows|
    ensures forall i :: 0 <= i < |rows| ==> items[i] == FormatFile(rows[i])
  {
    seq(|rows|, i requires 0 <= i < |rows| => FormatFile(rows[i]))
  }

  /** The row a menu item came from. */
  function RowOf(item: MenuItem): FileRow
  {
    FileRow(StoredFile(item.uuid, item.name, item.createdAt))
  }

  /** Formatting loses nothing: every row can be read back from its item,
      so distinct rows give distinct items. */
  lemma FormatFilesLosesNothing(rows: seq<FileRow>)
    ensures var items := FormatFiles(rows);
            forall i :: 0 <= i < |rows| ==> RowOf(items[i]) == rows[i]
    ensures NoDuplicates(rows) ==> NoDuplicates(FormatFiles(rows))
  {
    var items := FormatFiles(rows);
    assert forall i :: 0 <= i < |rows| ==> RowOf(items[i]) == rows[i];
    if NoDuplicates(rows) {
      forall i, j | 0 <= i < j < |items|
        ensures items[i] != items[j]
      {
        assert RowOf(items[i]) == rows[i] && RowOf(items[j]) == rows[j];
      }
    }
  }

  // ---------------------------------------------------------------------
  // Grouping by day

  /** The group key of every item: `dateKey` stands for
      `format(new Date(createdAt), 'MMMM d, yyyy')`, which is not part of
      this model. */
  function Dates(items: seq<MenuItem>, dateKey: string -> string): (ds: seq<string>)
    ensures |ds| == |items|
    ensures forall i :: 0 <= i < |items| ==> ds[i] == dateKey(items[i].createdAt)
  {
    seq(|items|, i requires 0 <= i < |items| => dateKey(items[i].createdAt))
  }

  /** The items filed under `date`, in their original order. */
  function Group(items: seq<MenuItem>, dateKey: string -> string, date: string): (g: seq<MenuItem>)
    ensures |g| <= |items|
    ensures forall i :: 0 <= i < |g| ==> dateKey(g[i].createdAt) == date
  {
    if items == [] then []
    else
      var x := items[|items| - 1];
      Group(items[..|items| - 1], dateKey, date) + (if dateKey(x.createdAt) == date then [x] else [])
  }

  /** An item is in a group exactly when it is one of the items and its day
      is the group's key. */
  lemma {:induction false} GroupMembers(items: seq<MenuItem>, dateKey: string -> string, date: string)
    ensures forall x :: x in Group(items, dateKey, date) <==> x in items && dateKey(x.createdAt) == date
  {
    if items != [] {
      GroupMembers(items[..|items| - 1], dateKey, date);
      assert items == items[..|items| - 1] + [items[|items| - 1]];
    }
  }

  /** The number of items in the groups of `keys`. */
  function Total(keys: seq<string>, items: seq<MenuItem>, dateKey: string -> string): nat
  {
    if keys == [] then 0
    else Total(keys[..|keys| - 1], items, dateKey) + |Group(items, dateKey, keys[|keys| - 1])|
  }

  /** One more item adds one to the group of its day and nothing to any
      other. */
  lemma {:induction false} TotalSnoc(keys: seq<string>, items: seq<MenuItem>, x: MenuItem, dateKey: string -> string)
    requires NoDuplicates(keys)
    ensures Total(keys, items + [x], dateKey) ==
              Total(keys, items, dateKey) + (if dateKey(x.createdAt) in keys then 1 else 0)
  {
    assert (items + [x])[..|items|] == items;
    if keys != [] {
      var init := keys[..|keys| - 1];
      assert NoDuplicates(init);
      TotalSnoc(init, items, x, dateKey);
      assert keys == init + [keys[|keys| - 1]];
    }
  }

  lemma DatesSnoc(items: seq<MenuItem>, x: MenuItem, dateKey: string -> string)
    ensures Dates(items + [x], dateKey) == Dates(items, dateKey) + [dateKey(x.createdAt)]
  {
  }

  lemma GroupSnoc(items: seq<MenuItem>, x: MenuItem, dateKey: string -> string, date: string)
    ensures Group(items + [x], dateKey, date) ==
              Group(items, dateKey, date) + (if dateKey(x.createdAt) == date then [x] else [])
  {
    assert (items + [x])[..|items|] == items;
  }

  /** A day no item has has an empty group. */
  lemma {:induction false} AbsentDateEmptyGroup(items: seq<MenuItem>, dateKey: string -> string, date: string)
    requires date !in Dates(items, dateKey)
    ensures Group(items, dateKey, date) == []
  {
    if items != [] {
      var init := items[..|items| - 1];
      assert items == init + [items[|items| - 1]];
      DatesSnoc(init, items[|items| - 1], dateKey);
      AbsentDateEmptyGroup(init, dateKey, date);
    }
  }

  /** Every item lands in exactly one group: the group sizes add up to the
      number of items. */
  lemma {:induction false} GroupSizesSum(items: seq<MenuItem>, dateKey: string -> string)
    ensures Total(Dedup(Dates(items, dateKey)), items, dateKey) == |items|
  {
    if items != [] {
      var init := items[..|items| - 1];
      var x := items[|items| - 1];
      var d := dateKey(x.createdAt);
      GroupSizesSum(init, dateKey);
      assert items == init + [x];
      DatesSnoc(init, x, dateKey);
      DedupSnoc(Dates(init, dateKey), d);
      var keys := Dedup(Dates(init, dateKey));
      DedupProperties(Dates(init, dateKey));
      TotalSnoc(keys, init, x, dateKey);
      if d !in keys {
        NewKeyTotal(keys, init, x, dateKey);
      }
    }
  }

  lemma NewKeyTotal(keys: seq<string>, init: seq<MenuItem>, x: MenuItem, dateKey: string -> string)
    requires keys == Dedup(Dates(init, dateKey)) && dateKey(x.createdAt) !in keys
    ensures Total(keys + [dateKey(x.createdAt)], init + [x], dateKey) == Total(keys, init + [x], dateKey) + 1
  {
    var d := dateKey(x.createdAt);
    DedupProperties(Dates(init, dateKey));
    AbsentDateEmptyGroup(init, dateKey, d);
    GroupSnoc(init, x, dateKey, d);
    assert (keys + [d])[..|keys|] == keys;
  }

  /** The `reduce` that files each item under its day: a group is created
      the first time its day occurs, and each item is pushed onto its
      group. The keys are listed in creation order. */
  method GroupByDate(items: seq<MenuItem>, dateKey: string -> string)
    returns (keys: seq<string>, groups: map<string, seq<MenuItem>>)
    ensures keys == Dedup(Dates(items, dateKey))
    ensures forall k :: k in groups <==> k in keys
    ensures forall k :: k in groups ==> groups[k] == Group(items, dateKey, k) && groups[k] != []
  {
    keys, groups := [], map[];
    var i := 0;
    while i < |items|
      invariant 0 <= i <= |items|
      invariant keys == Dedup(Dates(items[..i], dateKey))
      invariant GroupsMatch(keys, groups, items[..i], dateKey)
    {
      var file := items[i];
      var date := dateKey(file.createdAt);
      assert items[..i + 1] == items[..i] + [file];
      KeysSnoc(items[..i], file, dateKey);
      GroupsSnoc(keys, groups, items[..i], file, dateKey);
      if date in groups {
        groups := groups[date := groups[date] + [file]];
      } else {
        keys, groups := keys + [date], groups[date := [file]];
      }
      i := i + 1;
    }
    assert items[..i] == items;
  }

  /** The groups hold exactly the listed days, each with its items. */
  ghost predicate GroupsMatch(keys: seq<string>, groups: map<string, seq<MenuItem>>,
                              items: seq<MenuItem>, dateKey: string -> string)
  {
    (forall k :: k in groups <==> k in keys)
    && (forall k :: k in groups ==> groups[k] == Group(items, dateKey, k) && groups[k] != [])
  }

  /** One step of the `reduce` keeps the groups matching the items seen. */
  lemma GroupsSnoc(keys: seq<string>, groups: map<string, seq<MenuItem>>,
                   seen: seq<MenuItem>, x: MenuItem, dateKey: string -> string)
    requires keys == Dedup(Dates(seen, dateKey))
    requires GroupsMatch(keys, groups, seen, dateKey)
    ensures var date := dateKey(x.createdAt);
            var current := if date in groups then groups[date] else [];
            GroupsMatch(if date in groups then keys else keys + [date],
                        groups[date := current + [x]], seen + [x], dateKey)
  {
    var date := dateKey(x.createdAt);
    KeysSnoc(seen, x, dateKey);
    if date in groups {
      OldDaySnoc(keys, groups, seen, x, dateKey);
    } else {
      NewDaySnoc(keys, groups, seen, x, dateKey);
    }
  }

  lemma OldDaySnoc(keys: seq<string>, groups: map<string, seq<MenuItem>>,
                   seen: seq<MenuItem>, x: MenuItem, dateKey: string -> string)
    requires GroupsMatch(keys, groups, seen, dateKey)
    requires dateKey(x.createdAt) in groups
    ensures var date := dateKey(x.createdAt);
            GroupsMatch(keys, groups[date := groups[date] + [x]], seen + [x], dateKey)
  {
    var date := dateKey(x.createdAt);
    var groups' := groups[date := groups[date] + [x]];
    forall k | k in groups'
      ensures groups'[k] == Group(seen + [x], dateKey, k) && groups'[k] != []
    {
      GroupSnoc(seen, x, dateKey, k);
    }
  }

  lemma NewDaySnoc(keys: seq<string>, groups: map<string, seq<MenuItem>>,
                   seen: seq<MenuItem>, x: MenuItem, dateKey: string -> string)
    requires GroupsMatch(keys, groups, seen, dateKey)
    requires dateKey(x.createdAt) !in groups && Group(seen, dateKey, dateKey(x.createdAt)) == []
    ensures var date := dateKey(x.createdAt);
            GroupsMatch(keys + [date], groups[date := [x]], seen + [x], dateKey)
  {
    var date := dateKey(x.createdAt);
    var groups' := groups[date := [x]];
    forall k | k in groups'
      ensures groups'[k] == Group(seen + [x], dateKey, k) && groups'[k] != []
    {
      GroupSnoc(seen, x, dateKey, k);
    }
    forall k
      ensures k in groups' <==> k in keys + [date]
    {
    }
  }

  /** The first item of a new day opens a new key, whose group so far is
      empty; an item of a known day leaves the keys as they are. */
  lemma KeysSnoc(seen: seq<MenuItem>, x: MenuItem, dateKey: string -> string)
    ensures var date := dateKey(x.createdAt);
            var keys := Dedup(Dates(seen, dateKey));
            Dedup(Dates(seen + [x], dateKey)) == (if date in keys then keys else keys + [date])
            && (date !in keys ==> Group(seen, dateKey, date) == [])
  {
    var date := dateKey(x.createdAt);
    DatesSnoc(seen, x, dateKey);
    DedupSnoc(Dates(seen, dateKey), date);
    DedupProperties(Dates(seen, dateKey));
    if date !in Dedup(Dates(seen, dateKey)) {
      AbsentDateEmptyGroup(seen, dateKey, date);
    }
  }

  // ---------------------------------------------------------------------
  // The menu button's label

  const MaxShown: nat := 18

  /** A name longer than 18 characters shows its first 18 and an
      ellipsis; a shorter one is shown as it is. */
  function Truncate(filename: string): (shown: string)
    ensures |filename| <= MaxShown ==> shown == filename
    ensures |filename| > MaxShown ==> |shown| == MaxShown + 3
                                      && shown[..MaxShown] == filename[..MaxShown] && shown[MaxShown..] == "..."
  {
    if |filename| > MaxShown then filename[..MaxShown] + "..." else filename
  }

  /** Shortening a shortened name changes nothing, and two names that share
      their first 18 characters and are both too long show the same. */
  lemma TruncateIdempotent(a: string, b: string)
    ensures Truncate(Truncate(a)) == Truncate(a)
    ensures |a| > MaxShown && |b| > MaxShown && a[..MaxShown] == b[..MaxShown] ==> Truncate(a) == Truncate(b)
  {
    if |a| > MaxShown {
      assert Truncate(a)[..MaxShown] == a[..MaxShown];
    }
  }
}
