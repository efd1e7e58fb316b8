/** Fixed-width little-endian records, one after the other: how the writer emits headers
    and tables and how the loader reads them in place. */
module Records {
  import opened Words

  /** A value of `n` bytes. */
  datatype Field = Field(v: int, n: nat)

  function Encode(fs: seq<Field>): seq<byte> {
    if fs == [] then [] else LittleEndian(fs[0].v, fs[0].n) + Encode(fs[1..])
  }

  /** The width of the first `i` fields. */
  function Skip(fs: seq<Field>, i: nat): nat
    requires i <= |fs|
    decreases i, fs
  {
    if i == 0 then 0 else Skip(fs, i - 1) + fs[i - 1].n
  }

  lemma {:induction false} SkipTail(fs: seq<Field>, i: nat)
    requires 0 < i <= |fs|
    ensures Skip(fs, i) == fs[0].n + Skip(fs[1..], i - 1)
    decreases i
  {
    if i > 1 {
      SkipTail(fs, i - 1);
    }
  }

  lemma {:induction false} EncodeLength(fs: seq<Field>)
    ensures |Encode(fs)| == Skip(fs, |fs|)
  {
    if fs != [] {
      EncodeLength(fs[1..]);
      SkipTail(fs, |fs|);
    }
  }

  /** Each field is where the widths before it say. */
  lemma {:induction false} FieldAt(fs: seq<Field>, i: nat)
    requires i < |fs|
    ensures Skip(fs, i) + fs[i].n <= |Encode(fs)|
    ensures Encode(fs)[Skip(fs, i)..Skip(fs, i) + fs[i].n] == LittleEndian(fs[i].v, fs[i].n)
    decreases i
  {
    if i > 0 {
      var head, tail := LittleEndian(fs[0].v, fs[0].n), Encode(fs[1..]);
      FieldAt(fs[1..], i - 1);
      SkipTail(fs, i);
      var k, n := Skip(fs[1..], i - 1), fs[i].n;
      assert (head + tail)[|head| + k..|head| + k + n] == tail[k..k + n];
    } else {
      assert Encode(fs)[0..fs[0].n] == LittleEndian(fs[0].v, fs[0].n);
    }
  }

  /** Reading a field back gives its value, if the value fits. */
  lemma FieldLoads(fs: seq<Field>, i: nat, at: nat)
    requires i < |fs| && at == Skip(fs, i) && 0 <= fs[i].v < Pow256(fs[i].n)
    ensures at + fs[i].n <= |Encode(fs)| && Load(Encode(fs), at, fs[i].n) == fs[i].v
  {
    FieldAt(fs, i);
    LittleEndianDecodes(fs[i].v, fs[i].n);
    ModUnique(fs[i].v, Pow256(fs[i].n), 0, fs[i].v);
  }

  // ------------------------------------------------------------------------- tables

  function Flatten(rows: seq<seq<byte>>): seq<byte> {
    if rows == [] then [] else rows[0] + Flatten(rows[1..])
  }

  /** Row `i` of a table of `w`-byte rows. */
  function Row(table: seq<byte>, w: nat, i: nat): seq<byte>
    requires w * (i + 1) <= |table|
  {
    assert w * (i + 1) == w * i + w;
    table[w * i..w * i + w]
  }

  lemma {:induction false} FlattenLength(rows: seq<seq<byte>>, w: nat)
    requires forall i :: 0 <= i < |rows| ==> |rows[i]| == w
    ensures |Flatten(rows)| == w * |rows|
  {
    if rows != [] {
      FlattenLength(rows[1..], w);
      assert w * |rows| == w + w * (|rows| - 1);
    }
  }

  lemma {:induction false} FlattenAppend(rows: seq<seq<byte>>, row: seq<byte>)
    ensures Flatten(rows + [row]) == Flatten(rows) + row
  {
    if rows == [] {
      assert rows + [row] == [row];
      assert Flatten([row]) == row + Flatten([]);
    } else {
      assert (rows + [row])[1..] == rows[1..] + [row];
      FlattenAppend(rows[1..], row);
    }
  }

  lemma TimesLess(w: nat, i: nat, n: nat)
    requires i < n
    ensures w * (i + 1) <= w * n && w * (i + 1) == w * i + w
  {
    assert w * n == w * (i + 1) + w * (n - i - 1);
  }

  /** Every row is read back from its place in the table. */
  lemma {:induction false} RowAt(rows: seq<seq<byte>>, w: nat, i: nat)
    requires forall k :: 0 <= k < |rows| ==> |rows[k]| == w
    requires i < |rows|
    ensures w * (i + 1) <= |Flatten(rows)| && Row(Flatten(rows), w, i) == rows[i]
    decreases i
  {
    FlattenLength(rows, w);
    TimesLess(w, i, |rows|);
    var head, tail := rows[0], Flatten(rows[1..]);
    if i > 0 {
      RowAt(rows[1..], w, i - 1);
      assert w * i == w + w * (i - 1) && w * (i - 1 + 1) == w * (i - 1) + w;
      var k := w * (i - 1);
      assert (head + tail)[w + k..w + k + w] == tail[k..k + w];
    } else {
      assert (head + tail)[0..w] == head;
    }
  }
}
