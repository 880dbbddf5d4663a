/** The client's contacts, and the walk over a bitmap that marks who is online. */
module Phonebooks {
  import opened Bitmap

  const EXTENSIONS := 1000
  const HIGHEST := 699

  class ContactItem {
    const number: int
    var online: bool

    constructor (number: int)
      ensures this.number == number && !online
    {
      this.number, online := number, false;
    }
  }

  class Phonebook {
    /** A contact sits in the slot of its own number. */
    const local: array<ContactItem?>

    ghost predicate Valid()
      reads local
    {
      local.Length == EXTENSIONS
      && forall n :: 0 <= n < EXTENSIONS && local[n] != null ==> local[n].number == n
    }

    constructor ()
      ensures Valid() && fresh(local) && forall n :: 0 <= n < EXTENSIONS ==> local[n] == null
    {
      local := new ContactItem?[EXTENSIONS](_ => null);
    }

    ghost function Items(): set<ContactItem?>
      reads local
    {
      set o | o in local[..]
    }

    /** A slot without a contact, and a number beyond the guard's bounds, are passed over. */
    method ChangeOnline(number: int, status: bool)
      requires Valid() && number != EXTENSIONS
      modifies Items()
      ensures 0 <= number < EXTENSIONS && local[number] != null ==> local[number].online == status
      ensures forall n | 0 <= n < EXTENSIONS && n != number && local[n] != null :: local[n].online == old(local[n].online)
    {
      if number < 0 || number > 1000 { return; }
      var item := local[number];
      if item == null { return; }
      assert item in local[..];
      if status == item.online { return; }
      item.online := status;
    }

    /** A contact new in the roster; nobody has said that it is online. */
    method AddContact(number: int)
      requires Valid() && 0 <= number < EXTENSIONS
      modifies local
      ensures Valid() && fresh(local[number]) && local[number] != null && !local[number].online
      ensures forall n | 0 <= n < EXTENSIONS && n != number :: local[n] == old(local[n])
    {
      local[number] := new ContactItem(number);
    }

    /** The connection is lost: everyone from 100 up is shown offline, but for the highest number. */
    method Disconnect()
      requires Valid()
      modifies Items()
      ensures forall n | 100 <= n < HIGHEST && local[n] != null :: !local[n].online
      ensures forall n | 0 <= n < EXTENSIONS && !(100 <= n < HIGHEST) && local[n] != null ::
        local[n].online == old(local[n].online)
    {
      hide Bit;
      var status := seq((HIGHEST - 100) / 8 + 1, _ => 0);
      forall j | 0 <= j < HIGHEST - 100
        ensures !Bit(status, j)
      {
        NoBit(status, j);
      }
      ChangeStatus(status, 100, HIGHEST);
    }

    /**
     * Walks the bitmap with a byte position and a mask, from first up to but not including last.
     * The walk stays inside the bitmap whenever its bytes cover those numbers.
     */
    method ChangeStatus(status: seq<bv8>, first: int, last: int)
      requires Valid() && 0 <= first && last <= EXTENSIONS && Covers(status, first, last)
      modifies Items()
      ensures forall n | first <= n < last && local[n] != null :: local[n].online == Bit(status, n - first)
      ensures forall n | 0 <= n < EXTENSIONS && !(first <= n < last) && local[n] != null ::
        local[n].online == old(local[n].online)
    {
      hide Mask, Bit;
      var pos, mask: bv16 := 0, 1;
      var count := first;
      NextMask(7);
      while count < last
        invariant first <= count && (count <= last || count == first)
        invariant pos == (count - first) / 8 && mask == Mask((count - first) % 8) as bv16
        invariant forall n | first <= n < count && local[n] != null :: local[n].online == Bit(status, n - first)
        invariant forall n | 0 <= n < EXTENSIONS && !(first <= n < count) && local[n] != null ::
          local[n].online == old(local[n].online)
      {
        var online := (status[pos] as bv16) & mask != 0;
        WalkedBit(status, count - first);
        ChangeOnline(count, online);
        NextMask((count - first) % 8);
        mask := mask << 1;
        if mask > 128 {
          mask := 1;
          pos := pos + 1;
        }
        count := count + 1;
      }
    }
  }

  lemma NoBit(bytes: seq<bv8>, j: nat)
    requires j / 8 < |bytes| && bytes[j / 8] == 0
    ensures !Bit(bytes, j)
  {
  }

  /** The bounds `changeOnline` itself looks at before it uses the number as an index. */
  predicate PassesGuard(number: int) { !(number < 0 || number > 1000) }

  /** The guard keeps the access inside the array for every number but one: 1000 is let through. */
  lemma GuardSufficesIff(number: int)
    ensures (PassesGuard(number) ==> 0 <= number < EXTENSIONS) <==> number != EXTENSIONS
  {
  }

  predicate Covers(status: seq<bv8>, first: int, last: int) {
    first < last ==> (last - 1 - first) / 8 < |status|
  }

  lemma WideMask(b: bv8, i: nat)
    requires i < 8
    ensures (b as bv16) & (Mask(i) as bv16) != 0 <==> On(b, i)
  {
  }

  lemma WalkedBit(bytes: seq<bv8>, j: nat)
    requires j / 8 < |bytes|
    ensures (bytes[j / 8] as bv16) & (Mask(j % 8) as bv16) != 0 <==> Bit(bytes, j)
  {
    hide Mask, On;
    WideMask(bytes[j / 8], j % 8);
  }

  lemma NextMask(i: nat)
    requires i < 8
    ensures var next := (Mask(i) as bv16) << 1;
      if i == 7 then next > 128 && Mask(0) as bv16 == 1 else next <= 128 && next == Mask(i + 1) as bv16
  {
  }
}
