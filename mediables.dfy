/**
 * The association table (`twill_mediables` by default) as a sequence of rows,
 * the per-asset selection and count, and `Media::canDeleteSafely`.
 */
module Mediables {

  /** One association row: this asset is used by entity `mediableId` of type `mediableType`. */
  datatype MediableRow = MediableRow(mediaId: int, mediableType: string, mediableId: int)

  /** `where('media_id', $id)->get()`: the rows for one asset, in table order. */
  function RowsFor(rows: seq<MediableRow>, mediaId: int): (r: seq<MediableRow>)
    ensures |r| <= |rows|
    ensures forall row :: row in r <==> row in rows && row.mediaId == mediaId
    decreases |rows|
  {
    if rows == [] then []
    else if rows[0].mediaId == mediaId then [rows[0]] + RowsFor(rows[1..], mediaId)
    else RowsFor(rows[1..], mediaId)
  }

  /** `where('media_id', $id)->count()`: as many as the rows `get()` returns for the same asset. */
  function OwnerCount(rows: seq<MediableRow>, mediaId: int): (n: nat)
    ensures n == |RowsFor(rows, mediaId)|
    ensures n <= |rows|
    decreases |rows|
  {
    if rows == [] then 0
    else (if rows[0].mediaId == mediaId then 1 else 0) + OwnerCount(rows[1..], mediaId)
  }

  /**
   * The selection keeps table order and multiplicity: selecting from two parts
   * of the table is selecting from each part and concatenating.
   */
  lemma {:induction false} RowsForAppend(a: seq<MediableRow>, b: seq<MediableRow>, mediaId: int)
    ensures RowsFor(a + b, mediaId) == RowsFor(a, mediaId) + RowsFor(b, mediaId)
    decreases |a|
  {
    if a == [] {
      assert a + b == b;
    } else {
      assert (a + b)[1..] == a[1..] + b;
      RowsForAppend(a[1..], b, mediaId);
    }
  }

  /** Selecting from one row keeps it exactly when it belongs to the asset. */
  lemma RowsForSingle(row: MediableRow, mediaId: int)
    ensures RowsFor([row], mediaId) == if row.mediaId == mediaId then [row] else []
  {
    assert [row][1..] == [];
  }

  /** The count is zero exactly when no row refers to the asset. */
  lemma {:induction false} OwnerCountZeroIff(rows: seq<MediableRow>, mediaId: int)
    ensures OwnerCount(rows, mediaId) == 0 <==> forall i :: 0 <= i < |rows| ==> rows[i].mediaId != mediaId
    decreases |rows|
  {
    if rows != [] {
      OwnerCountZeroIff(rows[1..], mediaId);
      assert forall i :: 1 <= i < |rows| ==> rows[i] == rows[1..][i - 1];
    }
  }

  /** `canDeleteSafely()`: true exactly when no association row has this asset's id. */
  function CanDeleteSafely(rows: seq<MediableRow>, mediaId: int): (ok: bool)
    ensures ok <==> forall i :: 0 <= i < |rows| ==> rows[i].mediaId != mediaId
    ensures ok <==> RowsFor(rows, mediaId) == []
  {
    OwnerCountZeroIff(rows, mediaId);
    OwnerCount(rows, mediaId) == 0
  }

  /** An asset no row refers to (id 7 in a table about id 3) can be deleted; one with a row cannot. */
  lemma DeleteGuardExample()
    ensures CanDeleteSafely([MediableRow(3, "posts", 1)], 7)
    ensures !CanDeleteSafely([MediableRow(3, "posts", 1), MediableRow(7, "pages", 2)], 7)
  {
  }
}
