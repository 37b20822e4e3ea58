/** Byte-bounded staging of command output. */
module Output {

  /** The number of bytes of a character in UTF-8. */
  function CharBytes(c: char): (n: nat)
    ensures 1 <= n <= 4
  {
    var code := c as int;
    if code < 0x80 then 1 else if code < 0x800 then 2 else if code < 0x10000 then 3 else 4
  }

  function Bytes(s: string): nat
  {
    if s == [] then 0 else CharBytes(s[0]) + Bytes(s[1..])
  }

  lemma {:induction false} BytesOfConcatenation(a: string, b: string)
    ensures Bytes(a + b) == Bytes(a) + Bytes(b)
  {
    if a == [] {
      assert a + b == b;
    } else {
      BytesOfConcatenation(a[1..], b);
      assert (a + b)[1..] == a[1..] + b;
    }
  }

  lemma {:induction false} BytesOfAscii(s: string)
    requires forall i :: 0 <= i < |s| ==> s[i] as int < 0x80
    ensures Bytes(s) == |s|
  {
    if s != [] {
      BytesOfAscii(s[1..]);
    }
  }

  function Concat(pieces: seq<string>): string
  {
    if pieces == [] then [] else pieces[0] + Concat(pieces[1..])
  }

  lemma {:induction false} ConcatAppend(pieces: seq<string>, last: string)
    ensures Concat(pieces + [last]) == Concat(pieces) + last
  {
    if pieces == [] {
      assert [last][1..] == [];
    } else {
      assert (pieces + [last])[1..] == pieces[1..] + [last];
      ConcatAppend(pieces[1..], last);
    }
  }

  lemma {:induction false} ConcatOfConcatenation(a: seq<string>, b: seq<string>)
    ensures Concat(a + b) == Concat(a) + Concat(b)
  {
    if a == [] {
      assert a + b == b;
    } else {
      assert (a + b)[1..] == a[1..] + b;
      ConcatOfConcatenation(a[1..], b);
    }
  }

  lemma {:induction false} ConcatGrows(pieces: seq<string>, n: nat)
    requires n <= |pieces|
    ensures Concat(pieces[..n]) <= Concat(pieces)
    ensures Bytes(Concat(pieces[..n])) <= Bytes(Concat(pieces))
  {
    if n > 0 {
      assert pieces[..n][1..] == pieces[1..][..n - 1];
      ConcatGrows(pieces[1..], n - 1);
      BytesOfConcatenation(pieces[0], Concat(pieces[1..]));
      BytesOfConcatenation(pieces[0], Concat(pieces[1..][..n - 1]));
    }
  }

  /** Writing piece `i` after the pieces before it: what is then staged, and why a failure there is final. */
  lemma PieceIsNext(before: string, pieces: seq<string>, i: nat, piece: string)
    requires i < |pieces| && piece == pieces[i]
    ensures before + Concat(pieces[..i]) + piece == before + Concat(pieces[..i + 1])
    ensures Bytes(before + Concat(pieces[..i])) + Bytes(piece) <= Bytes(before) + Bytes(Concat(pieces))
  {
    var done := Concat(pieces[..i]);
    assert pieces[..i + 1] == pieces[..i] + [piece];
    ConcatAppend(pieces[..i], piece);
    assert before + done + piece == before + (done + piece);
    BytesOfConcatenation(done, piece);
    BytesOfConcatenation(before, done);
    ConcatGrows(pieces, i + 1);
  }

  class BoundedOutput {
    var value: string
    const maxBytes: nat

    constructor (maxBytes: nat)
      ensures value == [] && this.maxBytes == maxBytes
    {
      this.value := [];
      this.maxBytes := maxBytes;
    }

    /** The byte limit holds between any two writes. */
    predicate Valid()
      reads this
    {
      Bytes(value) <= maxBytes
    }

    /** A write succeeds exactly when it fits, and a failed write leaves the staged text alone. */
    method WriteStr(text: string) returns (ok: bool)
      requires Valid()
      modifies this
      ensures Valid()
      ensures ok <==> Bytes(old(value)) + Bytes(text) <= maxBytes
      ensures value == if ok then old(value) + text else old(value)
    {
      var newLength := Bytes(value) + Bytes(text);
      if newLength > maxBytes {
        return false;
      }
      BytesOfConcatenation(value, text);
      value := value + text;
      return true;
    }

    /**
     Writes in order, stopping at the first that fails.  All succeed exactly when the whole
     text fits; otherwise the staged text is extended by a proper prefix of the pieces.
     */
    method WriteAll(pieces: seq<string>) returns (ok: bool)
      requires Valid()
      modifies this
      ensures Valid()
      ensures ok <==> Bytes(old(value)) + Bytes(Concat(pieces)) <= maxBytes
      ensures ok ==> value == old(value) + Concat(pieces)
      ensures old(value) <= value <= old(value) + Concat(pieces)
      ensures !ok ==> exists n :: 0 <= n < |pieces| && value == old(value) + Concat(pieces[..n])
    {
      for i := 0 to |pieces|
        invariant Valid()
        invariant value == old(value) + Concat(pieces[..i])
      {
        PieceIsNext(old(value), pieces, i, pieces[i]);
        ok := WriteStr(pieces[i]);
        if !ok {
          ConcatGrows(pieces, i);
          return false;
        }
      }
      assert pieces[..|pieces|] == pieces;
      BytesOfConcatenation(old(value), Concat(pieces));
      return true;
    }
  }
}
