/** `Int2Key`: an immutable pair of 32-bit integers used as a dictionary key,
    with value equality. */
module KeyStruct {
  /** The range of a C# `int`. */
  newtype Int32 = x: int | -0x8000_0000 <= x < 0x8000_0000

  /** The struct; its constructor `Int2Key(item1, item2)` stores both items
      as given. */
  datatype Int2Key = Int2Key(item1: Int32, item2: Int32)

  /** What `Equals(object)` may receive: a boxed `Int2Key`, any other object,
      or null. */
  datatype Object = Boxed(key: Int2Key) | OtherObject(id: nat) | Null

  /** `Equals(Int2Key other)`: both items equal, that is, the same key. */
  function Equals(self: Int2Key, other: Int2Key): (r: bool)
    ensures r <==> self == other
  {
    self.item1 == other.item1 && self.item2 == other.item2
  }

  /** `Equals(object obj)`: only a boxed key with the same items is equal. */
  function EqualsObject(self: Int2Key, obj: Object): (r: bool)
    ensures r <==> obj == Boxed(self)
    ensures r <==> obj.Boxed? && Equals(self, obj.key)
  {
    match obj
    case Boxed(other) => Equals(self, other)
    case _ => false
  }

  /** Equality is reflexive, symmetric and transitive. */
  lemma EqualsIsEquivalence(a: Int2Key, b: Int2Key, c: Int2Key)
    ensures Equals(a, a)
    ensures Equals(a, b) == Equals(b, a)
    ensures Equals(a, b) && Equals(b, c) ==> Equals(a, c)
  {
  }

  /** The constructor keeps both items, so keys built from different pairs
      differ. */
  lemma ConstructorInjective(x1: Int32, x2: Int32, y1: Int32, y2: Int32)
    ensures Equals(Int2Key(x1, x2), Int2Key(y1, y2)) <==> x1 == y1 && x2 == y2
  {
  }
}
