/** The inventory record, its sortable fields, the value a field holds
    (`item[field]` in the source), the order between such values, and the
    field edits of the edit form. */
module Items {
  import opened Text

  /** The five columns a header click can sort by. */
  datatype Field = Id | Name | Quantity | Price | Category

  datatype Order = Asc | Desc

  /** One inventory record. The price is an integer key (for example, a
      number of cents) standing for the source's decimal number. */
  datatype Item = Item(id: int, name: string, quantity: int, price: int, category: string)

  /** The value found under a field: a number or a string. */
  datatype Key = IntKey(n: int) | StrKey(s: string)

  /** `item[field]`. */
  function Get(item: Item, f: Field): (k: Key)
    ensures k.IntKey? <==> f in {Id, Quantity, Price}
  {
    match f
    case Id => IntKey(item.id)
    case Name => StrKey(item.name)
    case Quantity => IntKey(item.quantity)
    case Price => IntKey(item.price)
    case Category => StrKey(item.category)
  }

  /** JavaScript `<` on two values of one field: numeric for numbers,
      lexicographic for strings. */
  predicate KeyLess(a: Key, b: Key) {
    match (a, b)
    case (IntKey(x), IntKey(y)) => x < y
    case (StrKey(s), StrKey(t)) => StrLess(s, t)
    case _ => false
  }

  lemma KeyLessAsymmetric(a: Key, b: Key)
    ensures !(KeyLess(a, b) && KeyLess(b, a))
  {
    if a.StrKey? && b.StrKey? {
      StrLessAsymmetric(a.s, b.s);
    }
  }

  /** Two values of the same field are equal or ordered one way or the
      other. */
  lemma KeyLessTotal(a: Key, b: Key)
    requires a.IntKey? == b.IntKey?
    ensures a == b || KeyLess(a, b) || KeyLess(b, a)
  {
    if a.StrKey? {
      StrLessTotal(a.s, b.s);
    }
  }

  lemma KeyLessTransitive(a: Key, b: Key, c: Key)
    requires KeyLess(a, b) && KeyLess(b, c)
    ensures KeyLess(a, c)
  {
    if a.StrKey? {
      StrLessTransitive(a.s, b.s, c.s);
    }
  }

  /** One keystroke in the edit form: the new value of one input. */
  datatype Edit =
    | SetName(name: string)
    | SetQuantity(quantity: int)
    | SetPrice(price: int)
    | SetCategory(category: string)
  {
    /** The field this input is bound to. */
    function Target(): Field {
      match this
      case SetName(_) => Name
      case SetQuantity(_) => Quantity
      case SetPrice(_) => Price
      case SetCategory(_) => Category
    }

    /** The value typed into it. */
    function Value(): Key {
      match this
      case SetName(v) => StrKey(v)
      case SetQuantity(v) => IntKey(v)
      case SetPrice(v) => IntKey(v)
      case SetCategory(v) => StrKey(v)
    }
  }

  /** `{ ...editingItem, field: value }`: a copy of the draft with one
      field replaced; the id and every other field are kept. */
  function ApplyEdit(item: Item, e: Edit): (r: Item)
    ensures r.id == item.id
    ensures Get(r, e.Target()) == e.Value()
    ensures forall g :: g != e.Target() ==> Get(r, g) == Get(item, g)
  {
    match e
    case SetName(v) => item.(name := v)
    case SetQuantity(v) => item.(quantity := v)
    case SetPrice(v) => item.(price := v)
    case SetCategory(v) => item.(category := v)
  }

  /** Typing twice into the same input keeps only the second value. */
  lemma ApplyEditLastWins(item: Item, e1: Edit, e2: Edit)
    requires e1.Target() == e2.Target()
    ensures ApplyEdit(ApplyEdit(item, e1), e2) == ApplyEdit(item, e2)
  {
  }

  /** Edits to different inputs do not interfere. */
  lemma ApplyEditCommutes(item: Item, e1: Edit, e2: Edit)
    requires e1.Target() != e2.Target()
    ensures ApplyEdit(ApplyEdit(item, e1), e2) == ApplyEdit(ApplyEdit(item, e2), e1)
  {
  }
}
