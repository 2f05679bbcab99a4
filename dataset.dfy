/**
 * Dataset assembly: the rows of the training matrix and the shared label
 * vector, built from the users' directory listings in list order. Pixel
 * data is not modelled; a row records which image file it was read from.
 */
module Dataset {
  import opened OneVsRest

  /** The directory entry that assembly skips. */
  const ModelEntry: string := "model"

  /** A row of the training matrix: an image of the user at list position `owner`, or all zeros. */
  datatype Row = Blank | Image(owner: nat, file: string)

  /** `List.indexOf`: the first position holding `x`, or -1 when there is none. */
  function IndexOf<T(==)>(xs: seq<T>, x: T): (i: int)
    ensures -1 <= i < |xs|
    ensures i >= 0 ==> xs[i] == x && forall j :: 0 <= j < i ==> xs[j] != x
    ensures i == -1 <==> x !in xs
  {
    if xs == [] then -1
    else if xs[0] == x then 0
    else
      var k := IndexOf(xs[1..], x);
      if k < 0 then -1 else k + 1
  }

  /** Each position's label: the list position that `indexOf` finds for its user. */
  function PositionLabels<T(==)>(users: seq<T>): (r: seq<int>)
    ensures |r| == |users|
  {
    seq(|users|, p requires 0 <= p < |users| => IndexOf(users, users[p]))
  }

  /** `filesSize`: the number of directory entries over all users, `model` entries included. */
  function FilesSize(listings: seq<seq<string>>): nat {
    if listings == [] then 0
    else FilesSize(listings[..|listings| - 1]) + |listings[|listings| - 1]|
  }

  /** Number of `model` entries in one listing. */
  function ModelEntries(files: seq<string>): nat {
    if files == [] then 0
    else ModelEntries(files[..|files| - 1]) + (if files[|files| - 1] == ModelEntry then 1 else 0)
  }

  /** Number of `model` entries over all listings. */
  function AllModelEntries(listings: seq<seq<string>>): nat {
    if listings == [] then 0
    else AllModelEntries(listings[..|listings| - 1]) + ModelEntries(listings[|listings| - 1])
  }

  /** The rows one user contributes: its files in listing order, `model` skipped. */
  function UserRows(owner: nat, files: seq<string>): (r: seq<Row>)
    ensures |r| + ModelEntries(files) == |files|
    ensures forall k :: 0 <= k < |r| ==> r[k].Image?
  {
    if files == [] then []
    else
      var last := files[|files| - 1];
      UserRows(owner, files[..|files| - 1]) + (if last == ModelEntry then [] else [Image(owner, last)])
  }

  /** All rows assembly writes, at consecutive indices from 0: users in list order, then files. */
  function Rows(listings: seq<seq<string>>): (r: seq<Row>)
    ensures |r| + AllModelEntries(listings) == FilesSize(listings)
    ensures forall k :: 0 <= k < |r| ==> r[k].Image?
  {
    if listings == [] then []
    else Rows(listings[..|listings| - 1]) + UserRows(|listings| - 1, listings[|listings| - 1])
  }

  /** The whole matrix: the written rows, then one zero row per skipped `model` entry. */
  function Assembled(listings: seq<seq<string>>): (r: seq<Row>)
    ensures |r| == FilesSize(listings)
  {
    var rows := Rows(listings);
    rows + seq(FilesSize(listings) - |rows|, _ => Blank)
  }

  /** The label of one row: its owner's label; an unwritten row keeps 0. */
  function LabelOf(row: Row, ownerLabels: seq<int>): real {
    match row
    case Blank => 0.0
    case Image(p, _) => if p < |ownerLabels| then ownerLabels[p] as real else 0.0
  }

  /** The shared label vector of a matrix. */
  function LabelsOf(rows: seq<Row>, ownerLabels: seq<int>): (r: seq<real>)
    ensures |r| == |rows|
  {
    seq(|rows|, k requires 0 <= k < |rows| => LabelOf(rows[k], ownerLabels))
  }

  /** On distinct users, `indexOf` finds each user's own list position. */
  lemma IndexOfDistinct<T>(users: seq<T>, p: nat)
    requires p < |users|
    requires forall i, j :: 0 <= i < j < |users| ==> users[i] != users[j]
    ensures IndexOf(users, users[p]) == p
  {
    assert users[p] in users;
  }

  /** Every label `indexOf` gives names a list position that holds the same user. */
  lemma PositionLabelsNameUser<T>(users: seq<T>, p: nat)
    requires p < |users|
    ensures 0 <= PositionLabels(users)[p] <= p
    ensures users[PositionLabels(users)[p]] == users[p]
  {
    assert users[p] in users;
  }

  /** The rows of one user are its non-`model` files, each in its listing. */
  lemma {:induction false} UserRowsWellFormed(owner: nat, files: seq<string>)
    ensures forall k :: 0 <= k < |UserRows(owner, files)| ==>
      var row := UserRows(owner, files)[k];
      row.Image? && row.owner == owner && row.file != ModelEntry && row.file in files
  {
    if files != [] {
      var init := files[..|files| - 1];
      UserRowsWellFormed(owner, init);
      forall f | f in init ensures f in files {
        var i :| 0 <= i < |init| && init[i] == f;
        assert files[i] == f;
      }
    }
  }

  /**
   * Every written row is an image of a listed user, read from that user's
   * listing, and never a `model` entry.
   */
  lemma {:induction false} RowsWellFormed(listings: seq<seq<string>>)
    ensures forall k :: 0 <= k < |Rows(listings)| ==>
      var row := Rows(listings)[k];
      row.Image? && row.owner < |listings| && row.file != ModelEntry && row.file in listings[row.owner]
  {
    if listings != [] {
      var n := |listings| - 1;
      var init := listings[..n];
      RowsWellFormed(init);
      UserRowsWellFormed(n, listings[n]);
      forall k | 0 <= k < |Rows(init)|
        ensures Rows(init)[k].owner < |listings| && Rows(init)[k].file in listings[Rows(init)[k].owner]
      {
        assert init[Rows(init)[k].owner] == listings[Rows(init)[k].owner];
      }
    }
  }

  /** Rows are grouped by user in list order: a later row never belongs to an earlier user. */
  lemma {:induction false} RowsOwnerOrdered(listings: seq<seq<string>>)
    ensures forall k1, k2 :: 0 <= k1 <= k2 < |Rows(listings)| ==>
      Rows(listings)[k1].owner <= Rows(listings)[k2].owner
  {
    if listings != [] {
      var n := |listings| - 1;
      RowsOwnerOrdered(listings[..n]);
      RowsWellFormed(listings[..n]);
      UserRowsWellFormed(n, listings[n]);
    }
  }

  /** At most `filesSize` rows are written: exactly `filesSize` minus the `model` entries. */
  lemma RowCount(listings: seq<seq<string>>)
    ensures |Rows(listings)| == FilesSize(listings) - AllModelEntries(listings)
    ensures |Rows(listings)| <= FilesSize(listings)
  {
  }

  /**
   * The label of each written row is the list position `indexOf` finds for
   * the row's user (its own position when users are distinct); every slot
   * after the written rows is a zero row labelled 0.
   */
  lemma AssembledLabels<T>(users: seq<T>, listings: seq<seq<string>>)
    requires |listings| == |users|
    ensures forall k :: 0 <= k < |Rows(listings)| ==>
      var p := Rows(listings)[k].owner;
      Assembled(listings)[k] == Rows(listings)[k] &&
      p < |users| && LabelsOf(Assembled(listings), PositionLabels(users))[k] == IndexOf(users, users[p]) as real
    ensures forall k :: |Rows(listings)| <= k < FilesSize(listings) ==>
      Assembled(listings)[k] == Blank && LabelsOf(Assembled(listings), PositionLabels(users))[k] == 0.0
  {
    RowsWellFormed(listings);
  }

  /**
   * The zero rows left by skipped `model` entries carry label 0, so the
   * one-vs-rest labels of the user at position 0 count them as that user's
   * own samples.
   */
  lemma PaddingCountsForFirstUser<T>(users: seq<T>, listings: seq<seq<string>>)
    requires |listings| == |users|
    ensures forall k :: |Rows(listings)| <= k < FilesSize(listings) ==>
      Encode(LabelsOf(Assembled(listings), PositionLabels(users)), 0.0)[k] == 1.0
  {
    AssembledLabels(users, listings);
  }
}
