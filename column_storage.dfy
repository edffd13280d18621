/** Column-major value storage of gram_csv_load_csv (src/gram_csv_lib.c:248-286).

    Each data record contributes one value to every column. A field is
    converted with `atof` unless it is empty (its first byte is NUL), in
    which case it stores 0.0. `atof` itself is a parameter: it is a call
    into the C library and is not modelled. */
module ColumnStorage {
  import opened CType

  /** Initial capacity of every column (`cbuf_sz`, line 250). */
  const InitialCapacity: nat := 16

  /** The value stored for one field (lines 274-278): `field[0] != '\0'`
      decides whether `atof` is called, and `atof` sees the field up to its
      first NUL. */
  function FieldValue(field: string, atof: string -> real): (v: real)
    ensures CStr(field) == [] ==> v == 0.0
    ensures CStr(field) != [] ==> v == atof(CStr(field))
  {
    if field == [] || field[0] == '\0' then 0.0 else atof(CStr(field))
  }

  /** All records have `n` fields. */
  predicate Rectangular(rows: seq<seq<string>>, n: nat) {
    forall r :: 0 <= r < |rows| ==> |rows[r]| == n
  }

  /** The columns that the accepted records fill: column `c` holds the value
      of field `c` of every record, in record order. */
  function ColumnsOf(rows: seq<seq<string>>, n: nat, atof: string -> real): (cols: seq<seq<real>>)
    requires Rectangular(rows, n)
    ensures |cols| == n
    ensures forall c :: 0 <= c < n ==> |cols[c]| == |rows|
    ensures forall c, r :: 0 <= c < n && 0 <= r < |rows| ==> cols[c][r] == FieldValue(rows[r][c], atof)
  {
    seq(n, c requires 0 <= c < n => seq(|rows|, r requires 0 <= r < |rows| => FieldValue(rows[r][c], atof)))
  }

  /** Appending a record appends one value to each column. */
  lemma ColumnsOfSnoc(rows: seq<seq<string>>, line: seq<string>, n: nat, atof: string -> real)
    requires Rectangular(rows, n) && |line| == n
    ensures Rectangular(rows + [line], n)
    ensures ColumnsOf(rows + [line], n, atof)
         == seq(n, c requires 0 <= c < n => ColumnsOf(rows, n, atof)[c] + [FieldValue(line[c], atof)])
  {
    var rs := rows + [line];
    assert Rectangular(rs, n) by {
      forall r | 0 <= r < |rs| ensures |rs[r]| == n {
        if r < |rows| { assert rs[r] == rows[r]; }
      }
    }
    var lhs := ColumnsOf(rs, n, atof);
    var rhs := seq(n, c requires 0 <= c < n => ColumnsOf(rows, n, atof)[c] + [FieldValue(line[c], atof)]);
    forall c | 0 <= c < n ensures lhs[c] == rhs[c] {
      forall r | 0 <= r < |rs| ensures lhs[c][r] == rhs[c][r] {
        if r < |rows| { assert rs[r] == rows[r]; }
      }
    }
  }

  /** The columns of a table being filled, each an array whose length is its
      capacity; `len` is `cbuf_p`, the number of records stored. This is the
      corrected storage: every column is grown when it is full, so the
      invariant the source intends, `cbuf_p` below the capacity of every
      column, holds. */
  class ColumnStore {
    var cols: seq<array<real>>
    var len: nat
    ghost var Contents: seq<seq<real>>
    ghost var Repr: set<object>

    ghost predicate Valid()
      reads this, Repr
    {
      && this in Repr
      && (forall i :: 0 <= i < |cols| ==> cols[i] in Repr)
      && (forall i, j :: 0 <= i < j < |cols| ==> cols[i] != cols[j])
      && |Contents| == |cols|
      && (forall i :: 0 <= i < |cols| ==> len < cols[i].Length && cols[i][..len] == Contents[i])
    }

    /** `calloc` of `n` columns of InitialCapacity values (lines 248-254). */
    constructor (n: nat)
      ensures Valid() && fresh(Repr)
      ensures |cols| == n && len == 0
      ensures Contents == seq(n, _ => [])
      ensures forall i :: 0 <= i < n ==> cols[i].Length == InitialCapacity
    {
      cols := [];
      len := 0;
      Contents := [];
      Repr := {this};
      new;
      var i := 0;
      while i < n
        invariant 0 <= i <= n
        invariant |cols| == i && |Contents| == i && len == 0
        invariant this in Repr && fresh(Repr)
        invariant forall k :: 0 <= k < i ==> cols[k] in Repr && cols[k].Length == InitialCapacity
        invariant forall k, j :: 0 <= k < j < i ==> cols[k] != cols[j]
        invariant forall k :: 0 <= k < i ==> Contents[k] == []
      {
        var column := new real[InitialCapacity];
        cols := cols + [column];
        Contents := Contents + [[]];
        Repr := Repr + {column};
        i := i + 1;
      }
    }

    /** `realloc` of a column to twice its capacity: the stored values are kept. */
    static method Grow(a: array<real>) returns (b: array<real>)
      ensures fresh(b) && b.Length == 2 * a.Length
      ensures b[..a.Length] == a[..]
    {
      b := new real[2 * a.Length];
      forall k | 0 <= k < a.Length {
        b[k] := a[k];
      }
    }

    /** Grows column `i` when `cbuf_p + 1 >= capacity` (lines 279-282) and
        writes `v` at index `cbuf_p` (line 283). */
    method WriteAt(i: nat, v: real)
      requires this in Repr && i < |cols| && len < cols[i].Length
      requires forall k :: 0 <= k < |cols| ==> cols[k] in Repr
      requires forall k, j :: 0 <= k < j < |cols| ==> cols[k] != cols[j]
      modifies this, cols[i]
      ensures this in Repr && fresh(Repr - old(Repr))
      ensures |cols| == |old(cols)| && len == old(len) && Contents == old(Contents)
      ensures forall k :: 0 <= k < |cols| ==> cols[k] in Repr
      ensures forall k, j :: 0 <= k < j < |cols| ==> cols[k] != cols[j]
      ensures forall k :: 0 <= k < |cols| && k != i ==> cols[k] == old(cols[k])
      ensures len + 1 < cols[i].Length && cols[i][..len + 1] == old(cols[i][..len]) + [v]
    {
      if len + 1 >= cols[i].Length {
        var grown := Grow(cols[i]);
        assert grown[..len] == cols[i][..len];
        cols := cols[i := grown];
        Repr := Repr + {grown};
      }
      cols[i][len] := v;
    }

    /** Stores one accepted record (lines 273-286): value `i` goes to column
        `i` at index `cbuf_p`, and `cbuf_p` advances once. */
    method AppendRecord(line: seq<string>, atof: string -> real)
      requires Valid() && |line| == |cols|
      modifies Repr
      ensures Valid() && fresh(Repr - old(Repr))
      ensures |cols| == |old(cols)| && len == old(len) + 1
      ensures |Contents| == |old(Contents)| == |line|
      ensures forall c :: 0 <= c < |line| ==> Contents[c] == old(Contents)[c] + [FieldValue(line[c], atof)]
    {
      ghost var before := Contents;
      var i := 0;
      while i < |line|
        invariant 0 <= i <= |line| == |cols| == |Contents| == |before|
        invariant len == old(len) && before == old(Contents)
        invariant this in Repr && fresh(Repr - old(Repr))
        invariant forall k :: 0 <= k < |cols| ==> cols[k] in Repr
        invariant forall k, j :: 0 <= k < j < |cols| ==> cols[k] != cols[j]
        invariant forall k :: 0 <= k < i ==> len + 1 < cols[k].Length && cols[k][..len + 1] == Contents[k]
        invariant forall k :: 0 <= k < i ==> Contents[k] == before[k] + [FieldValue(line[k], atof)]
        invariant forall k :: i <= k < |cols| ==> len < cols[k].Length && cols[k][..len] == Contents[k]
        invariant forall k :: i <= k < |cols| ==> Contents[k] == before[k]
      {
        var v := FieldValue(line[i], atof);
        WriteAt(i, v);
        Contents := Contents[i := Contents[i] + [v]];
        i := i + 1;
      }
      len := len + 1;
    }

    /** The stored values, each column cut to the records stored. */
    method Export() returns (values: seq<seq<real>>)
      requires Valid()
      ensures values == Contents
    {
      values := [];
      var i := 0;
      while i < |cols|
        invariant 0 <= i <= |cols|
        invariant values == Contents[..i]
      {
        values := values + [cols[i][..len]];
        i := i + 1;
      }
    }
  }

  // ---------------------------------------------------------------------
  // The storage as written: one shared `cbuf_sz`
  // ---------------------------------------------------------------------

  /** The source keeps one capacity `cbuf_sz` for all columns but grows only
      the column being written when `cbuf_p + 1 >= cbuf_sz` (lines 279-282).
      Processing columns `i..` of record `p`: returns the new `cbuf_sz` and
      the real capacities of the columns. */
  function AsWrittenRecord(sz: nat, caps: seq<nat>, p: nat, i: nat): (r: (nat, seq<nat>))
    requires i <= |caps|
    ensures |r.1| == |caps|
    decreases |caps| - i
  {
    if i == |caps| then (sz, caps)
    else if p + 1 >= sz then AsWrittenRecord(sz * 2, caps[i := sz * 2], p, i + 1)
    else AsWrittenRecord(sz, caps, p, i + 1)
  }

  /** `cbuf_sz` and the column capacities after `p` records of an
      `n`-column table. */
  function AsWrittenAfter(n: nat, p: nat): (r: (nat, seq<nat>))
    ensures |r.1| == n
  {
    if p == 0 then (InitialCapacity, seq(n, _ => InitialCapacity))
    else AsWrittenRecord(AsWrittenAfter(n, p - 1).0, AsWrittenAfter(n, p - 1).1, p - 1, 0)
  }

  /** Column `i` only changes while its own iteration runs, so the capacity
      it has when record `p` writes index `p` into it is its capacity after
      record `p`. The write is in bounds exactly when this holds. */
  predicate AsWrittenWriteFits(n: nat, p: nat, i: nat)
    requires i < n
  {
    p < AsWrittenAfter(n, p + 1).1[i]
  }

  /** Within one record, once column 0 has been grown `cbuf_sz` exceeds
      `cbuf_p + 1`, so the other columns are never grown. */
  lemma {:induction false} AsWrittenRecordRest(sz: nat, caps: seq<nat>, p: nat, i: nat)
    requires 1 <= i <= |caps| && p + 1 < sz
    ensures AsWrittenRecord(sz, caps, p, i) == (sz, caps)
    decreases |caps| - i
  {
    if i < |caps| {
      AsWrittenRecordRest(sz, caps, p, i + 1);
    }
  }

  /** The state of the source's storage after `p` records: column 0 follows
      `cbuf_sz`, which stays above `p`, while every other column keeps its
      initial 16 slots. */
  lemma {:induction false} AsWrittenShape(n: nat, p: nat)
    requires n >= 1
    ensures var (sz, caps) := AsWrittenAfter(n, p);
            && p < sz && caps[0] == sz
            && forall i :: 1 <= i < n ==> caps[i] == InitialCapacity
  {
    if p > 0 {
      AsWrittenShape(n, p - 1);
      var (sz, caps) := AsWrittenAfter(n, p - 1);
      if p >= sz {
        AsWrittenRecordRest(sz * 2, caps[0 := sz * 2], p - 1, 1);
      } else {
        AsWrittenRecordRest(sz, caps, p - 1, 1);
      }
    }
  }

  /** The defect: with two or more columns, record 17 (index 16) and every
      later record write past the 16 slots of each column other than the
      first. */
  lemma AsWrittenOverflow(n: nat, p: nat, i: nat)
    requires 1 <= i < n && p >= InitialCapacity
    ensures !AsWrittenWriteFits(n, p, i)
  {
    AsWrittenShape(n, p + 1);
  }

  /** Up to 16 records every write of the source is in bounds. */
  lemma AsWrittenFitsEarly(n: nat, p: nat, i: nat)
    requires i < n && p < InitialCapacity
    ensures AsWrittenWriteFits(n, p, i)
  {
    AsWrittenShape(n, p + 1);
  }
}
