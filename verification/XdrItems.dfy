/** XDR structures as plain lists of items (RFC 4506), independent of how they are written
    or read. */
module XdrItems {
  import opened Sequences
  import opened BigEndian
  import opened Replies
  import opened Xdr

  /** An unsigned integer, a hyper, a variable-length opaque, or fixed-length bytes. */
  datatype Item = Word(n: u32) | Hyper(n64: u64) | Counted(data: seq<byte>) | Plain(bytes: seq<byte>)

  predicate ItemFits(i: Item) {
    i.Counted? ==> |i.data| < U32_BOUND
  }

  /** Length, bytes, and zeros up to the next multiple of four. */
  function ItemBytes(i: Item): seq<byte>
    requires ItemFits(i)
  {
    match i
    case Word(n) => Be32(n)
    case Hyper(n) => Be64(n)
    case Counted(data) => Be32(|data|) + data + seq((4 - |data| % 4) % 4, _ => 0)
    case Plain(bytes) => bytes
  }

  ghost predicate AllFit(items: seq<Item>) {
    forall i :: i in items ==> ItemFits(i)
  }

  function Flat(items: seq<Item>): seq<byte>
    requires AllFit(items)
  {
    if items == [] then [] else ItemBytes(items[0]) + Flat(items[1..])
  }

  // ----------------------------------------------------------------- items in front of others

  function Before(items: seq<Item>, rest: seq<byte>): seq<byte>
    requires AllFit(items)
  {
    Flat(items) + rest
  }

  function PutItem(i: Item, rest: seq<byte>): seq<byte>
    requires ItemFits(i)
  {
    match i
    case Word(n) => PutU32(n, rest)
    case Hyper(n) => PutU64(n, rest)
    case Counted(data) => PutOpaque(data, rest)
    case Plain(bytes) => bytes + rest
  }

  lemma ItemInFront(i: Item, rest: seq<byte>)
    requires ItemFits(i)
    ensures ItemBytes(i) + rest == PutItem(i, rest)
  {
    hide Be32, Be64;
    if i.Counted? {
      var z := seq((4 - |i.data| % 4) % 4, _ => 0);
      assert z == Zeros(Padding(|i.data|));
      assert (Be32(|i.data|) + i.data + z) + rest == Be32(|i.data|) + (i.data + (z + rest));
    }
  }

  lemma Peel(items: seq<Item>, rest: seq<byte>)
    requires AllFit(items)
    ensures items == [] ==> Before(items, rest) == rest
    ensures items != [] ==> ItemFits(items[0]) && AllFit(items[1..])
                            && Before(items, rest) == PutItem(items[0], Before(items[1..], rest))
  {
    hide ItemBytes, PutItem;
    if items != [] {
      assert items[0] in items;
      ItemInFront(items[0], Flat(items[1..]) + rest);
      assert (ItemBytes(items[0]) + Flat(items[1..])) + rest == ItemBytes(items[0]) + (Flat(items[1..]) + rest);
    }
  }

  lemma NothingInFront(rest: seq<byte>)
    ensures AllFit([]) && Before([], rest) == rest
  {
  }

  lemma One(i: Item, rest: seq<byte>)
    requires ItemFits(i)
    ensures AllFit([i]) && Before([i], rest) == PutItem(i, rest)
  {
    hide Flat, Before, PutItem;
    Peel([i], rest);
    assert [i][1..] == [];
    Peel([], rest);
  }

  lemma {:induction false} FlatConcat(a: seq<Item>, b: seq<Item>)
    requires AllFit(a) && AllFit(b)
    ensures AllFit(a + b) && Flat(a + b) == Flat(a) + Flat(b)
  {
    hide ItemBytes;
    if a == [] {
      assert a + b == b;
    } else {
      assert (a + b)[1..] == a[1..] + b;
      FlatConcat(a[1..], b);
    }
  }

  lemma Join(a: seq<Item>, b: seq<Item>, rest: seq<byte>)
    requires AllFit(a) && AllFit(b)
    ensures AllFit(a + b) && Before(a + b, rest) == Before(a, Before(b, rest))
  {
    hide Flat;
    FlatConcat(a, b);
    assert Flat(a) + Flat(b) + rest == Flat(a) + (Flat(b) + rest);
  }

  lemma Two(i: Item, j: Item, rest: seq<byte>)
    requires ItemFits(i) && ItemFits(j)
    ensures AllFit([i, j]) && Before([i, j], rest) == PutItem(i, PutItem(j, rest))
  {
    hide Before, PutItem, AllFit;
    One(i, PutItem(j, rest));
    One(j, rest);
    Join([i], [j], rest);
    assert [i] + [j] == [i, j];
  }

  lemma Three(i: Item, j: Item, k: Item, rest: seq<byte>)
    requires ItemFits(i) && ItemFits(j) && ItemFits(k)
    ensures AllFit([i, j, k]) && Before([i, j, k], rest) == PutItem(i, PutItem(j, PutItem(k, rest)))
  {
    hide Before, PutItem, AllFit;
    One(i, PutItem(j, PutItem(k, rest)));
    Two(j, k, rest);
    Join([i], [j, k], rest);
    assert [i] + [j, k] == [i, j, k];
  }

  lemma Four(i: Item, j: Item, k: Item, l: Item, rest: seq<byte>)
    requires ItemFits(i) && ItemFits(j) && ItemFits(k) && ItemFits(l)
    ensures AllFit([i, j, k, l]) && Before([i, j, k, l], rest) == PutItem(i, PutItem(j, PutItem(k, PutItem(l, rest))))
  {
    hide Before, PutItem, AllFit;
    One(i, PutItem(j, PutItem(k, PutItem(l, rest))));
    Three(j, k, l, rest);
    Join([i], [j, k, l], rest);
    assert [i] + [j, k, l] == [i, j, k, l];
  }

  lemma Five(i: Item, j: Item, k: Item, l: Item, m: Item, rest: seq<byte>)
    requires ItemFits(i) && ItemFits(j) && ItemFits(k) && ItemFits(l) && ItemFits(m)
    ensures AllFit([i, j, k, l, m])
    ensures Before([i, j, k, l, m], rest) == PutItem(i, PutItem(j, PutItem(k, PutItem(l, PutItem(m, rest)))))
  {
    hide Before, PutItem, AllFit;
    One(i, PutItem(j, PutItem(k, PutItem(l, PutItem(m, rest)))));
    Four(j, k, l, m, rest);
    Join([i], [j, k, l, m], rest);
    assert [i] + [j, k, l, m] == [i, j, k, l, m];
  }
}
