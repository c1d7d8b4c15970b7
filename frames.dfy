/**
 * The part of a pandas DataFrame the analysis code relies on: named columns
 * of equal height, in order, and `df[name] = column`, which replaces a
 * column in place or appends a new one at the right.
 */
module Frames {

  /** A cell: missing (NaN), text, an integer, or a real number. */
  datatype Value = Missing | Str(s: string) | Int(n: int) | Real(x: real)

  type Column = seq<Value>

  /** A table: its column names in order, each name's column, and the number of rows. */
  datatype Table = Table(names: seq<string>, cols: map<string, Column>, height: nat)

  predicate Distinct(names: seq<string>) {
    forall i, j :: 0 <= i < j < |names| ==> names[i] != names[j]
  }

  /** Distinct names, exactly one column per name, every column `height` cells tall. */
  ghost predicate WellFormed(t: Table) {
    Distinct(t.names)
    && (forall n :: n in t.cols <==> n in t.names)
    && (forall n :: n in t.cols ==> |t.cols[n]| == t.height)
  }

  /** `df[name] = col`: an existing column is replaced where it stands, a new one is appended. */
  function Assign(t: Table, name: string, col: Column): (r: Table)
    requires WellFormed(t) && |col| == t.height
    ensures WellFormed(r)
    ensures r.height == t.height
    ensures r.cols == t.cols[name := col]
    ensures r.names == if name in t.cols then t.names else t.names + [name]
  {
    if name in t.cols then Table(t.names, t.cols[name := col], t.height)
    else Table(t.names + [name], t.cols[name := col], t.height)
  }

  /** Assigning a column leaves every other column, and its position, as it was. */
  lemma AssignKeepsOthers(t: Table, name: string, col: Column, other: string)
    requires WellFormed(t) && |col| == t.height && other != name && other in t.cols
    ensures other in Assign(t, name, col).cols && Assign(t, name, col).cols[other] == t.cols[other]
    ensures forall i :: 0 <= i < |t.names| ==> Assign(t, name, col).names[i] == t.names[i]
  {
  }

  /** A DataFrame, updated in place by column assignment. */
  class Frame {
    var names: seq<string>
    var cols: map<string, Column>
    const height: nat

    function Snapshot(): Table
      reads this
    {
      Table(names, cols, height)
    }

    ghost predicate Valid()
      reads this
    {
      WellFormed(Snapshot())
    }

    constructor (t: Table)
      requires WellFormed(t)
      ensures Valid() && Snapshot() == t
    {
      names := t.names;
      cols := t.cols;
      height := t.height;
    }

    /** `self[name] = col`. */
    method SetColumn(name: string, col: Column)
      requires Valid() && |col| == height
      modifies this
      ensures Valid()
      ensures Snapshot() == Assign(old(Snapshot()), name, col)
    {
      if name !in cols {
        names := names + [name];
      }
      cols := cols[name := col];
    }
  }
}
