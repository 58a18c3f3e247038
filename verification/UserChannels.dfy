/**
 The merge of the channels a user holds keys for into the channel list: a matching row is marked
 in place, a key without a row gets a new row at the end.
 */
module UserChannels {
  import opened Prelude

  datatype Row = Row(hash: string, name: string, userLabel: Option<string>, messageCount: nat, encrypted: bool, userAdded: bool)

  predicate RowMatches(r: Row, key: string) {
    r.name == key || r.hash == key || r.hash == "user:" + key
  }

  /** channels.find: the first matching row at or after i, or |rows|. */
  function Find(rows: seq<Row>, key: string, i: nat): (r: nat)
    requires i <= |rows|
    ensures i <= r <= |rows|
    ensures r < |rows| ==> RowMatches(rows[r], key)
    ensures forall j :: i <= j < r ==> !RowMatches(rows[j], key)
    decreases |rows| - i
  {
    if i == |rows| || RowMatches(rows[i], key) then i else Find(rows, key, i + 1)
  }

  function LabelOf(labels: map<string, string>, key: string): string {
    if key in labels then labels[key] else ""
  }

  function Mark(r: Row, text: string): Row {
    r.(userAdded := true, userLabel := if text != "" then Some(text) else r.userLabel)
  }

  function NewRow(key: string, text: string): Row {
    Row("user:" + key, key, Some(text), 0, true, true)
  }

  function MergeOne(rows: seq<Row>, key: string, text: string): seq<Row> {
    var i := Find(rows, key, 0);
    if i < |rows| then rows[i := Mark(rows[i], text)] else rows + [NewRow(key, text)]
  }

  function Merge(rows: seq<Row>, keys: seq<string>, labels: map<string, string>): seq<Row>
    decreases |keys|
  {
    if keys == [] then rows
    else Merge(MergeOne(rows, keys[0], LabelOf(labels, keys[0])), keys[1..], labels)
  }

  /** The channel list, changed in place. */
  class ChannelList {
    var channels: seq<Row>

    constructor (rows: seq<Row>)
      ensures channels == rows
    {
      channels := rows;
    }

    method MergeUserChannels(keys: seq<string>, labels: map<string, string>)
      modifies this
      ensures channels == Merge(old(channels), keys, labels)
    {
      for k := 0 to |keys|
        invariant Merge(channels, keys[k..], labels) == Merge(old(channels), keys, labels)
      {
        assert keys[k..][1..] == keys[k + 1..];
        MergeKey(keys[k], if keys[k] in labels then labels[keys[k]] else "");
      }
      assert keys[|keys|..] == [];
    }

    /** The body of the loop over the keys. */
    method MergeKey(key: string, text: string)
      modifies this
      ensures channels == MergeOne(old(channels), key, text)
    {
      var i := 0;
      while i < |channels| && !RowMatches(channels[i], key)
        invariant i <= |channels| && Find(channels, key, 0) == Find(channels, key, i)
        invariant channels == old(channels)
      {
        i := i + 1;
      }
      if i < |channels| {
        channels := channels[i := channels[i].(userAdded := true)];
        if text != "" {
          channels := channels[i := channels[i].(userLabel := Some(text))];
        }
      } else {
        channels := channels + [NewRow(key, text)];
      }
    }
  }

  /** One key, by the fields of the rows: its row is the first whose name or hash is the key, or whose hash
      is the key after "user:". That row is marked, and relabelled by a label that is not empty; without such
      a row one is appended. */
  lemma OneKey(rows: seq<Row>, key: string, labels: map<string, string>, i: nat)
    requires i <= |rows| && forall j :: 0 <= j < i ==> rows[j].name != key && rows[j].hash != key && rows[j].hash != "user:" + key
    requires i < |rows| ==> rows[i].name == key || rows[i].hash == key || rows[i].hash == "user:" + key
    ensures var text := if key in labels then labels[key] else "";
            Merge(rows, [key], labels) ==
              if i == |rows| then rows + [Row("user:" + key, key, Some(text), 0, true, true)]
              else rows[..i] + [rows[i].(userAdded := true, userLabel := if text == "" then rows[i].userLabel else Some(text))] + rows[i + 1..]
  {
    assert Find(rows, key, 0) == i;
    assert [key][1..] == [];
    var text := LabelOf(labels, key);
    assert Merge(rows, [key], labels) == MergeOne(rows, key, text);
    if i < |rows| { Replaced(rows, i, Mark(rows[i], text)); }
  }

  lemma Replaced(rows: seq<Row>, i: nat, r: Row)
    requires i < |rows|
    ensures rows[i := r] == rows[..i] + [r] + rows[i + 1..]
  {
  }

  /** Several keys are merged one after the other. */
  lemma {:induction false} MergeSplits(rows: seq<Row>, a: seq<string>, b: seq<string>, labels: map<string, string>)
    ensures Merge(rows, a + b, labels) == Merge(Merge(rows, a, labels), b, labels)
    decreases |a|
  {
    if a == [] {
      assert a + b == b;
    } else {
      assert (a + b)[1..] == a[1..] + b;
      MergeSplits(MergeOne(rows, a[0], LabelOf(labels, a[0])), a[1..], b, labels);
    }
  }

  // --------------------------------------------- what a merge keeps and adds

  /** Row r is row q, possibly marked and relabelled. */
  predicate SameChannel(q: Row, r: Row) {
    r == q.(userLabel := r.userLabel, userAdded := r.userAdded) && (q.userAdded ==> r.userAdded)
  }

  /** Old rows keep their places and their contents up to the marks. */
  ghost predicate Extends(rows: seq<Row>, more: seq<Row>) {
    |rows| <= |more| && forall i :: 0 <= i < |rows| ==> SameChannel(rows[i], more[i])
  }

  /** A row found in a list is the one found in every extension of the list. */
  lemma {:induction false} FindStable(rows: seq<Row>, more: seq<Row>, key: string, i: nat)
    requires Extends(rows, more) && i <= |rows| && Find(rows, key, i) < |rows|
    ensures Find(more, key, i) == Find(rows, key, i)
    decreases |rows| - i
  {
    if !RowMatches(rows[i], key) { FindStable(rows, more, key, i + 1); }
  }

  lemma {:induction false} FindAppended(rows: seq<Row>, r: Row, key: string, i: nat)
    requires i <= |rows| && Find(rows, key, i) == |rows| && RowMatches(r, key)
    ensures Find(rows + [r], key, i) == |rows|
    decreases |rows| - i
  {
    if i < |rows| { FindAppended(rows, r, key, i + 1); }
  }

  lemma MergeOneExtends(rows: seq<Row>, key: string, text: string)
    ensures var more := MergeOne(rows, key, text);
            && Extends(rows, more) && Find(more, key, 0) < |more| && more[Find(more, key, 0)].userAdded
  {
    var i := Find(rows, key, 0);
    if i < |rows| {
      FindStable(rows, MergeOne(rows, key, text), key, 0);
    } else {
      FindAppended(rows, NewRow(key, text), key, 0);
    }
  }

  lemma {:induction false} MergeExtends(rows: seq<Row>, keys: seq<string>, labels: map<string, string>)
    ensures Extends(rows, Merge(rows, keys, labels))
    decreases |keys|
  {
    if keys != [] {
      var next := MergeOne(rows, keys[0], LabelOf(labels, keys[0]));
      MergeOneExtends(rows, keys[0], LabelOf(labels, keys[0]));
      MergeExtends(next, keys[1..], labels);
    }
  }

  /** Afterwards the first row that matches a key is marked as the user's. */
  lemma {:induction false} EveryKeyIsMarked(rows: seq<Row>, keys: seq<string>, labels: map<string, string>, k: nat)
    requires k < |keys|
    ensures var more := Merge(rows, keys, labels);
            Find(more, keys[k], 0) < |more| && more[Find(more, keys[k], 0)].userAdded
    decreases |keys|
  {
    var next := MergeOne(rows, keys[0], LabelOf(labels, keys[0]));
    if k == 0 {
      MergeOneExtends(rows, keys[0], LabelOf(labels, keys[0]));
      MergeExtends(next, keys[1..], labels);
      FindStable(next, Merge(rows, keys, labels), keys[0], 0);
    } else {
      EveryKeyIsMarked(next, keys[1..], labels, k - 1);
    }
  }

  /** The keys without a row at the moment they are visited, in order. */
  function Unmatched(rows: seq<Row>, keys: seq<string>, labels: map<string, string>): seq<string>
    decreases |keys|
  {
    if keys == [] then []
    else (if Find(rows, keys[0], 0) == |rows| then [keys[0]] else [])
         + Unmatched(MergeOne(rows, keys[0], LabelOf(labels, keys[0])), keys[1..], labels)
  }

  /** The list grows by one row for each key unmatched when visited. */
  lemma {:induction false} LengthOfMerge(rows: seq<Row>, keys: seq<string>, labels: map<string, string>)
    ensures |Merge(rows, keys, labels)| == |rows| + |Unmatched(rows, keys, labels)|
    decreases |keys|
  {
    if keys != [] {
      LengthOfMerge(MergeOne(rows, keys[0], LabelOf(labels, keys[0])), keys[1..], labels);
    }
  }

  // ------------------------------------------------------------ idempotence

  /** The label the keys leave on row t of the list table: that of the last key whose row it is
      and that has a label. */
  function LastLabel(table: seq<Row>, keys: seq<string>, labels: map<string, string>, t: nat, before: Option<string>): Option<string>
    decreases |keys|
  {
    if keys == [] then before
    else
      var text := LabelOf(labels, keys[0]);
      LastLabel(table, keys[1..], labels, t, if Find(table, keys[0], 0) == t && text != "" then Some(text) else before)
  }

  /** Either some key decides the label, whatever it was before, or none does. */
  lemma {:induction false} LastLabelAbsorbs(table: seq<Row>, keys: seq<string>, labels: map<string, string>, t: nat, before: Option<string>)
    ensures LastLabel(table, keys, labels, t, LastLabel(table, keys, labels, t, before)) == LastLabel(table, keys, labels, t, before)
    decreases |keys|
  {
    if forall b: Option<string> :: LastLabel(table, keys, labels, t, b) == b {
    } else {
      var b: Option<string> :| LastLabel(table, keys, labels, t, b) != b;
      LastLabelDecided(table, keys, labels, t, b, before);
      LastLabelDecided(table, keys, labels, t, b, LastLabel(table, keys, labels, t, before));
    }
  }

  lemma {:induction false} LastLabelDecided(table: seq<Row>, keys: seq<string>, labels: map<string, string>, t: nat, b: Option<string>, c: Option<string>)
    requires LastLabel(table, keys, labels, t, b) != b
    ensures LastLabel(table, keys, labels, t, b) == LastLabel(table, keys, labels, t, c)
    decreases |keys|
  {
    if keys != [] {
      var text := LabelOf(labels, keys[0]);
      if !(Find(table, keys[0], 0) == t && text != "") {
        LastLabelDecided(table, keys[1..], labels, t, b, c);
      }
    }
  }

  /** Row t of the merged list before any key touches it: an old row, or the new row of the key that
      appends it. */
  function FirstRow(rows: seq<Row>, added: seq<string>, labels: map<string, string>, t: nat): Row
    requires t < |rows| + |added|
  {
    if t < |rows| then rows[t] else NewRow(added[t - |rows|], LabelOf(labels, added[t - |rows|]))
  }

  /** Whether row t of the list table is marked after the keys. */
  predicate Marked(table: seq<Row>, keys: seq<string>, t: nat, before: bool) {
    before || exists k :: 0 <= k < |keys| && Find(table, keys[k], 0) == t
  }

  lemma MarkedStep(table: seq<Row>, keys: seq<string>, t: nat, before: bool)
    requires keys != []
    ensures Marked(table, keys, t, before) <==> Marked(table, keys[1..], t, before || Find(table, keys[0], 0) == t)
  {
    if k :| 0 <= k < |keys| && Find(table, keys[k], 0) == t && k > 0 {
      assert keys[1..][k - 1] == keys[k];
    }
  }

  /** What the first key does to row t. */
  lemma FirstKey(rows: seq<Row>, keys: seq<string>, labels: map<string, string>, t: nat)
    requires keys != [] && t < |rows| + |Unmatched(rows, keys, labels)|
    ensures var next, added := MergeOne(rows, keys[0], LabelOf(labels, keys[0])), Unmatched(rows, keys, labels);
            var first, rest := FirstRow(rows, added, labels, t), Unmatched(next, keys[1..], labels);
            && t < |next| + |rest|
            && FirstRow(next, rest, labels, t) == if Find(rows, keys[0], 0) == t then Mark(first, LabelOf(labels, keys[0])) else first
  {
    var next := MergeOne(rows, keys[0], LabelOf(labels, keys[0]));
    var rest := Unmatched(next, keys[1..], labels);
    if Find(rows, keys[0], 0) < |rows| {
      assert Unmatched(rows, keys, labels) == rest;
    } else {
      assert Unmatched(rows, keys, labels) == [keys[0]] + rest;
      AppendedFirst(rows, keys[0], rest, labels, t);
    }
  }

  lemma AppendedFirst(rows: seq<Row>, key: string, rest: seq<string>, labels: map<string, string>, t: nat)
    requires t < |rows| + 1 + |rest|
    ensures FirstRow(rows + [NewRow(key, LabelOf(labels, key))], rest, labels, t) == FirstRow(rows, [key] + rest, labels, t)
  {
  }

  /** The first key finds its row in the final list where it found or put it. */
  lemma FinalFind(rows: seq<Row>, keys: seq<string>, labels: map<string, string>)
    requires keys != []
    ensures Find(Merge(rows, keys, labels), keys[0], 0) == Find(rows, keys[0], 0)
  {
    var key, text := keys[0], LabelOf(labels, keys[0]);
    var next := MergeOne(rows, key, text);
    MergeOneExtends(rows, key, text);
    MergeExtends(next, keys[1..], labels);
    FindStable(next, Merge(rows, keys, labels), key, 0);
    if Find(rows, key, 0) < |rows| {
      FindStable(rows, next, key, 0);
    } else {
      FindAppended(rows, NewRow(key, text), key, 0);
    }
  }

  /** Every row of the merged list, exactly: the row it was, or the new row of the key that appended
      it, marked if some key has it as its row in the final list, and with the label of the last such
      key that has one. */
  lemma {:induction false} RowsOfMerge(rows: seq<Row>, keys: seq<string>, labels: map<string, string>, t: nat)
    requires t < |rows| + |Unmatched(rows, keys, labels)|
    ensures var table, first := Merge(rows, keys, labels), FirstRow(rows, Unmatched(rows, keys, labels), labels, t);
            && |table| == |rows| + |Unmatched(rows, keys, labels)|
            && table[t] == first.(userAdded := Marked(table, keys, t, first.userAdded),
                                  userLabel := LastLabel(table, keys, labels, t, first.userLabel))
    decreases |keys|
  {
    if keys != [] {
      var table, first := Merge(rows, keys, labels), FirstRow(rows, Unmatched(rows, keys, labels), labels, t);
      LengthOfMerge(rows, keys, labels);
      FirstKey(rows, keys, labels, t);
      FinalFind(rows, keys, labels);
      RowsOfMerge(MergeOne(rows, keys[0], LabelOf(labels, keys[0])), keys[1..], labels, t);
      MarkedStep(table, keys, t, first.userAdded);
    }
  }

  /** The rows appended are the new rows of the keys unmatched when visited, in key order, relabelled
      only by keys that share the row. */
  lemma AppendedAreUnmatched(rows: seq<Row>, keys: seq<string>, labels: map<string, string>, i: nat)
    requires i < |Unmatched(rows, keys, labels)|
    ensures var table, key, t := Merge(rows, keys, labels), Unmatched(rows, keys, labels)[i], |rows| + i;
            && t < |table| == |rows| + |Unmatched(rows, keys, labels)|
            && table[t] == NewRow(key, "").(userLabel := LastLabel(table, keys, labels, t, Some(LabelOf(labels, key))))
  {
    RowsOfMerge(rows, keys, labels, |rows| + i);
    var added := Unmatched(rows, keys, labels);
    assert FirstRow(rows, added, labels, |rows| + i) == NewRow(added[i], LabelOf(labels, added[i]));
  }

  /** When every key has its row already, merging only sets marks and labels. */
  lemma {:induction false} MergeInto(rows: seq<Row>, table: seq<Row>, keys: seq<string>, labels: map<string, string>)
    requires |rows| == |table| && Extends(table, rows)
    requires forall k :: 0 <= k < |keys| ==> Find(table, keys[k], 0) < |table| && table[Find(table, keys[k], 0)].userAdded
    requires forall i :: 0 <= i < |rows| ==> rows[i].userAdded == table[i].userAdded
    ensures var more := Merge(rows, keys, labels);
            && |more| == |table|
            && forall i :: 0 <= i < |table| ==> more[i] == table[i].(userLabel := LastLabel(table, keys, labels, i, rows[i].userLabel))
    decreases |keys|
  {
    if keys != [] {
      var key, text := keys[0], LabelOf(labels, keys[0]);
      assert Find(table, keys[0], 0) < |table|;
      FindStable(table, rows, key, 0);
      var next := MergeOne(rows, key, text);
      MergeInto(next, table, keys[1..], labels);
    }
  }

  /** Merging twice is merging once, for every list and every key set, also when several keys
      share a row through the "user:" prefix. */
  lemma MergeIsIdempotent(rows: seq<Row>, keys: seq<string>, labels: map<string, string>)
    ensures var once := Merge(rows, keys, labels); Merge(once, keys, labels) == once
  {
    var once := Merge(rows, keys, labels);
    forall k | 0 <= k < |keys| ensures Find(once, keys[k], 0) < |once| && once[Find(once, keys[k], 0)].userAdded {
      EveryKeyIsMarked(rows, keys, labels, k);
    }
    MergeInto(once, once, keys, labels);
    var twice := Merge(once, keys, labels);
    LengthOfMerge(rows, keys, labels);
    forall i | 0 <= i < |once| ensures twice[i] == once[i] {
      RowsOfMerge(rows, keys, labels, i);
      LastLabelAbsorbs(once, keys, labels, i, FirstRow(rows, Unmatched(rows, keys, labels), labels, i).userLabel);
    }
  }
}
