/** Types and sequence facts shared by every driver layer. */
module Common {

  /** One octet on a wire. */
  type Byte = x: int | 0 <= x < 256

  datatype Option<+T> = None | Some(value: T)

  datatype Result<+T, +E> = Ok(value: T) | Err(error: E)

  /** Bit `k` of a number, bit 0 being the lowest. */
  predicate Bit(v: nat, k: nat) { if k == 0 then v % 2 == 1 else Bit(v / 2, k - 1) }

  lemma Halves(v: nat) returns (h: nat, q: nat, e: nat, s: nat)
    ensures h == v / 2 && q == h / 2 == v / 4 && e == q / 2 == v / 8 && s == e / 2 == v / 16
  {
    h, q, e, s := v / 2, v / 4, v / 8, v / 16;
  }

  lemma LowBits(v: nat)
    ensures (Bit(v, 0) <==> v % 2 == 1) && (Bit(v, 1) <==> v / 2 % 2 == 1)
    ensures (Bit(v, 2) <==> v / 4 % 2 == 1) && (Bit(v, 3) <==> v / 8 % 2 == 1)
  {
    var h, q, e, s := Halves(v);
    assert Bit(e, 0) == Bit(q, 1) == Bit(h, 2) == Bit(v, 3);
    assert Bit(q, 0) == Bit(h, 1) == Bit(v, 2);
  }

  lemma HighBits(v: nat, k: nat)
    ensures Bit(v, k + 4) <==> Bit(v / 16, k)
  {
    var h, q, e, s := Halves(v);
    assert Bit(v, k + 4) == Bit(h, k + 3) == Bit(q, k + 2) == Bit(e, k + 1) == Bit(s, k);
  }

  /** Concatenation of all the pieces, in order (`b''.join`). */
  function Flatten<T>(pieces: seq<seq<T>>): seq<T> {
    if pieces == [] then [] else pieces[0] + Flatten(pieces[1..])
  }

  lemma {:induction false} FlattenAppend<T>(a: seq<seq<T>>, b: seq<seq<T>>)
    ensures Flatten(a + b) == Flatten(a) + Flatten(b)
  {
    if a == [] {
      assert a + b == b;
    } else {
      assert (a + b)[1..] == a[1..] + b;
      FlattenAppend(a[1..], b);
    }
  }

  lemma FlattenSnoc<T>(a: seq<seq<T>>, x: seq<T>)
    ensures Flatten(a + [x]) == Flatten(a) + x
  {
    FlattenAppend(a, [x]);
    assert Flatten([x]) == x;
  }

  /** `needle` stands in `hay` at position `i`. */
  predicate Occurs(hay: seq<Byte>, needle: seq<Byte>, i: nat) {
    i + |needle| <= |hay| && hay[i..i + |needle|] == needle
  }

  /** Python's `hay.find(needle, from)`. */
  function Find(hay: seq<Byte>, needle: seq<Byte>, from: nat): (r: Option<nat>)
    ensures r.Some? ==> from <= r.value && r.value + |needle| <= |hay|
    decreases |hay| - from
  {
    if from + |needle| > |hay| then None
    else if hay[from..from + |needle|] == needle then Some(from)
    else Find(hay, needle, from + 1)
  }

  /** `Find` yields the first occurrence not before `from`, and None only if there is none. */
  lemma {:induction false} FindMeaning(hay: seq<Byte>, needle: seq<Byte>, from: nat)
    ensures var r := Find(hay, needle, from);
      && (r.Some? ==> Occurs(hay, needle, r.value) && forall j: nat | from <= j < r.value :: !Occurs(hay, needle, j))
      && (r.None? ==> forall j: nat | from <= j :: !Occurs(hay, needle, j))
    decreases |hay| - from
  {
    if from + |needle| <= |hay| && hay[from..from + |needle|] != needle {
      FindMeaning(hay, needle, from + 1);
    }
  }

  /** An occurrence stays where it is when more bytes arrive. */
  lemma OccursExtends(s: seq<Byte>, t: seq<Byte>, needle: seq<Byte>, i: nat)
    requires i + |needle| <= |s|
    ensures Occurs(s + t, needle, i) <==> Occurs(s, needle, i)
  {
    assert (s + t)[i..i + |needle|] == s[i..i + |needle|];
  }

  /** A hit is final: bytes that arrive later cannot move the first occurrence. */
  lemma FindStable(s: seq<Byte>, t: seq<Byte>, needle: seq<Byte>)
    requires Find(s, needle, 0).Some?
    ensures Find(s + t, needle, 0) == Find(s, needle, 0)
  {
    var i := Find(s, needle, 0).value;
    FindMeaning(s, needle, 0);
    FindMeaning(s + t, needle, 0);
    forall j: nat | j <= i ensures Occurs(s + t, needle, j) <==> Occurs(s, needle, j) {
      OccursExtends(s, t, needle, j);
    }
  }

  /** After a miss, a search of the grown text may restart `|needle|` bytes
      before the old end (any earlier restart point agrees as well). */
  lemma FindResume(s: seq<Byte>, t: seq<Byte>, needle: seq<Byte>, from: nat)
    requires Find(s, needle, 0).None?
    requires from + |needle| <= |s| || from == 0
    ensures Find(s + t, needle, from) == Find(s + t, needle, 0)
  {
    FindMeaning(s, needle, 0);
    FindMeaning(s + t, needle, 0);
    FindMeaning(s + t, needle, from);
    forall j: nat | j < from ensures !Occurs(s + t, needle, j) {
      OccursExtends(s, t, needle, j);
    }
  }
}
