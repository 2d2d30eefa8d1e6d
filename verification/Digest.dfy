/**
  The row digest: rows are fed to a hash one by one, each followed by a newline. The hash is a
  parameter; that two equal digests mean equal rows is stated up to a collision, which is then
  exhibited.
 */
module Digest {
  import opened Prelude

  type Hash = string -> string

  const NEWLINE := '\n'

  /** All the bytes a digest of these rows has been fed. */
  function Fed(rows: seq<string>): string {
    if rows == [] then "" else Fed(rows[..|rows| - 1]) + rows[|rows| - 1] + [NEWLINE]
  }

  /** An accumulator that keeps the bytes fed so far and their row count, but no rows. */
  class RowDigest {
    const hash: Hash
    var fed: string
    var count: nat
    ghost var rows: seq<string>

    ghost predicate Valid()
      reads this
    {
      fed == Fed(rows) && count == |rows|
    }

    constructor (hash: Hash)
      ensures Valid() && this.hash == hash && rows == [] && fed == ""
    {
      this.hash, fed, count, rows := hash, "", 0, [];
    }

    method Add(row: string)
      requires Valid()
      modifies this
      ensures Valid() && rows == old(rows) + [row] && fed == old(fed) + row + "\n"
    {
      count := count + 1;
      fed := fed + row;
      fed := fed + [NEWLINE];
      rows := rows + [row];
      assert rows[..|rows| - 1] == old(rows);
    }

    method Sum() returns (sum: string)
      requires Valid()
      ensures sum == hash(Fed(rows)) == hash(fed)
    {
      sum := hash(fed);
    }
  }

  /** The digest of rows held in memory is the digest of the same rows streamed. */
  method DigestRows(hash: Hash, rows: seq<string>) returns (count: nat, sum: string)
    ensures count == |rows| && sum == hash(Fed(rows))
  {
    var d := new RowDigest(hash);
    for i := 0 to |rows|
      invariant d.Valid() && fresh(d) && d.hash == hash && d.rows == rows[..i]
    {
      d.Add(rows[i]);
      assert rows[..i] + [rows[i]] == rows[..i + 1];
    }
    assert rows[..|rows|] == rows;
    sum := d.Sum();
    count := d.count;
  }

  ghost predicate NewlineFree(rows: seq<string>) {
    forall r :: r in rows ==> NEWLINE !in r
  }

  lemma {:induction false} FedCons(rows: seq<string>)
    requires rows != []
    ensures Fed(rows) == rows[0] + [NEWLINE] + Fed(rows[1..])
    decreases |rows|
  {
    var n := |rows| - 1;
    if n == 0 {
      assert rows[..0] == [] && rows[1..] == [];
    } else {
      FedCons(rows[..n]);
      assert rows[..n][1..] == rows[1..][..n - 1] && rows[1..][n - 1] == rows[n];
      var first, middle, last := rows[0] + [NEWLINE], Fed(rows[1..][..n - 1]), rows[n] + [NEWLINE];
      assert (first + middle) + rows[n] + [NEWLINE] == first + (middle + rows[n] + [NEWLINE]);
    }
  }

  /** Newline-free rows can be told apart by the bytes fed. */
  lemma {:induction false} FedInjective(a: seq<string>, b: seq<string>)
    requires NewlineFree(a) && NewlineFree(b) && Fed(a) == Fed(b)
    ensures a == b
    decreases |a|
  {
    if a == [] && b == [] {
    } else if a == [] {
      FedCons(b);
    } else if b == [] {
      FedCons(a);
    } else {
      FedCons(a);
      FedCons(b);
      assert a[0] in a && b[0] in b;
      SplitAt(a[0], b[0], NEWLINE, Fed(a[1..]), Fed(b[1..]));
      FedInjective(a[1..], b[1..]);
      assert a == [a[0]] + a[1..] && b == [b[0]] + b[1..];
    }
  }

  /** Equal digests of newline-free rows are equal rows, or the hash collides on what was fed. */
  lemma DigestDecides(hash: Hash, a: seq<string>, b: seq<string>)
    requires NewlineFree(a) && NewlineFree(b)
    ensures hash(Fed(a)) == hash(Fed(b)) <==> a == b || Collision(hash, Fed(a), Fed(b))
  {
    if Fed(a) == Fed(b) {
      FedInjective(a, b);
    }
  }
}
