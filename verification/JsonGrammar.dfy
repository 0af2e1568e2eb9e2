/** Concrete syntax trees: the language the decoder accepts, with JSON as a part of it.
    `Text` prints a tree, `Denote` is the value it stands for; neither mentions the parser, with which they
    share only character tables and the reading of numerals. */
module JsonGrammar {
  import opened Options
  import opened Bytes
  import opened LuaValue
  import opened Numerals
  import opened Unicode
  import opened JsonLexis

  // ---------------------------------------------------------------- strings

  /** One character of a string literal. */
  datatype Item = Raw(b: byte) | Short(c: byte) | Uni(h: Hex) | Pair(hi: Hex, lo: Hex) {
    predicate IsUnicode() { Uni? || Pair? }

    predicate Valid(quote: byte) {
      match this
      case Raw(b) => b >= 32 && b != BACKSLASH && b != quote
      case Short(c) => Unescape(c).Some?
      case Uni(h) => h.Valid()
      case Pair(hi, lo) => hi.IsHigh() && lo.Valid() && Combine(hi.Value(), lo.Value()) <= 0x10ffff
    }

    /** Section 7 of RFC 8259, with surrogates in pairs only. Read byte by byte: bytes above 127 may stand in
        any order, whether or not they make up UTF-8. */
    predicate IsJson() {
      && Valid(QUOTE)
      && (Uni? ==> IsScalar(h.Value()))
      && (Pair? ==> 0xdc00 <= lo.Value() < 0xe000)
    }

    function Text(): bytes {
      match this
      case Raw(b) => [b]
      case Short(c) => [BACKSLASH, c]
      case Uni(h) => [BACKSLASH, LOWER_U, h.a, h.b, h.c, h.d]
      case Pair(hi, lo) =>
        [BACKSLASH, LOWER_U, hi.a, hi.b, hi.c, hi.d, BACKSLASH, LOWER_U, lo.a, lo.b, lo.c, lo.d]
    }

    function Bytes(ghost quote: byte): bytes
      requires Valid(quote)
    {
      match this
      case Raw(b) => [b]
      case Short(c) => [Unescape(c).value]
      case Uni(h) => CodepointToUtf8(h.Value()).value
      case Pair(hi, lo) => CodepointToUtf8(Combine(hi.Value(), lo.Value())).value
    }
  }

  /** The characters of a string literal, in order. */
  datatype Items = Done | Char(first: Item, rest: Items)

  /** A `\u` escape of a high surrogate swallows the `\u` escape that follows it, so it may stand
      alone only when none follows. */
  predicate ValidItems(items: Items, quote: byte) {
    items.Char? ==>
      && items.first.Valid(quote)
      && (items.first.Uni? && items.first.h.IsHigh() && items.rest.Char? ==> !items.rest.first.IsUnicode())
      && ValidItems(items.rest, quote)
  }

  predicate JsonItems(items: Items) { items.Char? ==> items.first.IsJson() && JsonItems(items.rest) }

  function ItemsText(items: Items): bytes {
    match items
    case Done => []
    case Char(it, rest) => it.Text() + ItemsText(rest)
  }

  function ItemsBytes(items: Items, quote: byte): bytes
    requires ValidItems(items, quote)
  {
    match items
    case Done => []
    case Char(it, rest) => it.Bytes(quote) + ItemsBytes(rest, quote)
  }

  // ---------------------------------------------------------------- values

  datatype Syntax =
    | SNull | SBool(b: bool) | SNumber(token: bytes) | SString(quote: byte, items: Items)
    | SArray(elements: Elements) | SObject(members: Members)

  /** What follows the opening bracket. `More(.., End(..))` is a trailing comma. */
  datatype Elements =
    | End(w: bytes)
    | Last(w: bytes, v: Syntax, w': bytes)
    | More(w: bytes, v: Syntax, w': bytes, rest: Elements)

  datatype Member = Member(w: bytes, quote: byte, key: Items, w1: bytes, w2: bytes, v: Syntax, w': bytes)

  datatype Members = EndM(w: bytes) | LastM(m: Member) | MoreM(m: Member, rest: Members)

  predicate Blank(w: bytes) { forall k :: 0 <= k < |w| ==> w[k] in SPACES }

  predicate IsQuote(b: byte) { b == QUOTE || b == APOSTROPHE }

  predicate IsToken(t: bytes) { forall k :: 0 <= k < |t| ==> t[k] !in DELIMITERS }

  predicate Valid(x: Syntax) {
    match x
    case SNull => true
    case SBool(_) => true
    case SNumber(t) => t != [] && StartsNumber(t[0]) && IsToken(t) && ToNumber(t).Some?
    case SString(q, items) => IsQuote(q) && ValidItems(items, q)
    case SArray(a) => ValidElements(a)
    case SObject(o) => ValidMembers(o)
  }

  predicate ValidElements(a: Elements) {
    match a
    case End(w) => Blank(w)
    case Last(w, v, w') => Blank(w) && Valid(v) && Blank(w')
    case More(w, v, w', rest) => Blank(w) && Valid(v) && Blank(w') && ValidElements(rest)
  }

  predicate ValidMember(m: Member) {
    && Blank(m.w) && IsQuote(m.quote) && ValidItems(m.key, m.quote)
    && Blank(m.w1) && Blank(m.w2) && Valid(m.v) && Blank(m.w')
  }

  predicate ValidMembers(o: Members) {
    match o
    case EndM(w) => Blank(w)
    case LastM(m) => ValidMember(m)
    case MoreM(m, rest) => ValidMember(m) && ValidMembers(rest)
  }

  /** The grammar of sections 2 to 7 of RFC 8259, read byte by byte as in `Item.IsJson`. */
  ghost predicate IsJson(x: Syntax) {
    match x
    case SNull => true
    case SBool(_) => true
    case SNumber(t) => exists n: Numeral :: n.IsJson() && n.Text() == t
    case SString(q, items) => q == QUOTE && JsonItems(items)
    case SArray(a) => JsonElements(a)
    case SObject(o) => JsonMembers(o)
  }

  ghost predicate JsonElements(a: Elements) {
    match a
    case End(w) => Blank(w)
    case Last(w, v, w') => Blank(w) && IsJson(v) && Blank(w')
    case More(w, v, w', rest) => Blank(w) && IsJson(v) && Blank(w') && JsonElements(rest) && !rest.End?
  }

  ghost predicate JsonMember(m: Member) {
    && Blank(m.w) && m.quote == QUOTE && JsonItems(m.key)
    && Blank(m.w1) && Blank(m.w2) && IsJson(m.v) && Blank(m.w')
  }

  ghost predicate JsonMembers(o: Members) {
    match o
    case EndM(w) => Blank(w)
    case LastM(m) => JsonMember(m)
    case MoreM(m, rest) => JsonMember(m) && JsonMembers(rest) && !rest.EndM?
  }

  // ---------------------------------------------------------------- text

  function StringText(q: byte, items: Items): bytes { [q] + (ItemsText(items) + [q]) }

  function Text(x: Syntax): bytes {
    match x
    case SNull => NULL
    case SBool(b) => if b then TRUE else FALSE
    case SNumber(t) => t
    case SString(q, items) => StringText(q, items)
    case SArray(a) => [LBRACKET] + ElementsText(a)
    case SObject(o) => [LBRACE] + MembersText(o)
  }

  function ElementsText(a: Elements): bytes {
    match a
    case End(w) => w + [RBRACKET]
    case Last(w, v, w') => w + (Text(v) + (w' + [RBRACKET]))
    case More(w, v, w', rest) => w + (Text(v) + (w' + ([COMMA] + ElementsText(rest))))
  }

  /** From the key's quote to the end of the value. */
  function MemberText(m: Member): bytes {
    StringText(m.quote, m.key) + (m.w1 + ([COLON] + (m.w2 + Text(m.v))))
  }

  function MembersText(o: Members): bytes {
    match o
    case EndM(w) => w + [RBRACE]
    case LastM(m) => m.w + (MemberText(m) + (m.w' + [RBRACE]))
    case MoreM(m, rest) => m.w + (MemberText(m) + (m.w' + ([COMMA] + MembersText(rest))))
  }

  // ---------------------------------------------------------------- meaning

  function Denote(x: Syntax): Value
    requires Valid(x)
  {
    match x
    case SNull => Nil
    case SBool(b) => Bool(b)
    case SNumber(t) => Num(ToNumber(t).value)
    case SString(q, items) => Str(ItemsBytes(items, q))
    case SArray(a) => Table(DenoteElements(a, 1, map[]))
    case SObject(o) => Table(DenoteMembers(o, map[]))
  }

  /** Element `n` and those after it, added to `t`; a null element leaves a hole. */
  function DenoteElements(a: Elements, n: nat, t: map<Key, Value>): map<Key, Value>
    requires ValidElements(a)
  {
    match a
    case End(_) => t
    case Last(_, v, _) => Put(t, KNum(n as real), Denote(v))
    case More(_, v, _, rest) => DenoteElements(rest, n + 1, Put(t, KNum(n as real), Denote(v)))
  }

  /** Members in order: a later duplicate replaces an earlier one and null removes the key. */
  function DenoteMembers(o: Members, t: map<Key, Value>): map<Key, Value>
    requires ValidMembers(o)
  {
    match o
    case EndM(_) => t
    case LastM(m) => DenoteMember(m, t)
    case MoreM(m, rest) => DenoteMembers(rest, DenoteMember(m, t))
  }

  function DenoteMember(m: Member, t: map<Key, Value>): map<Key, Value>
    requires ValidMember(m)
  {
    Put(t, KStr(ItemsBytes(m.key, m.quote)), Denote(m.v))
  }

  // ---------------------------------------------------------------- JSON is part of the language

  lemma {:induction false} JsonItemsValid(items: Items)
    requires JsonItems(items)
    ensures ValidItems(items, QUOTE)
  {
    if items.Char? { JsonItemsValid(items.rest); }
  }

  lemma JsonNumberValid(n: Numeral)
    requires n.IsJson()
    ensures Valid(SNumber(n.Text())) && ToNumber(n.Text()) == Some(n.Value())
  {
    ScanText(n);
    NumeralBytes(n);
  }

  /** No byte of a numeral is a delimiter. */
  lemma NumeralBytes(n: Numeral)
    requires n.Valid() && n.whole != []
    ensures n.Text() != [] && StartsNumber(n.Text()[0]) && IsToken(n.Text())
  {
    assert IsToken(n.SignText()) && IsToken(n.whole) && IsToken(n.FractionText());
    assert IsToken(n.ExponentText()) by {
      if n.exponent.Some? {
        var x := n.exponent.value;
        TokenConcat([x.letter], x.sign);
        TokenConcat([x.letter] + x.sign, x.digits);
      }
    }
    TokenConcat(n.FractionText(), n.ExponentText());
    TokenConcat(n.whole, n.FractionText() + n.ExponentText());
    TokenConcat(n.SignText(), n.whole + (n.FractionText() + n.ExponentText()));
  }

  lemma TokenConcat(a: bytes, b: bytes)
    requires IsToken(a) && IsToken(b)
    ensures IsToken(a + b)
  {}

  /** Every JSON text belongs to the language the decoder accepts. */
  lemma {:induction false} JsonValid(x: Syntax)
    requires IsJson(x)
    ensures Valid(x)
  {
    match x
    case SNull =>
    case SBool(_) =>
    case SNumber(t) =>
      var n: Numeral :| n.IsJson() && n.Text() == t;
      JsonNumberValid(n);
    case SString(q, items) => JsonItemsValid(items);
    case SArray(a) => JsonElementsValid(a);
    case SObject(o) => JsonMembersValid(o);
  }

  lemma {:induction false} JsonElementsValid(a: Elements)
    requires JsonElements(a)
    ensures ValidElements(a)
  {
    if !a.End? { JsonValid(a.v); }
    if a.More? { JsonElementsValid(a.rest); }
  }

  lemma {:induction false} JsonMembersValid(o: Members)
    requires JsonMembers(o)
    ensures ValidMembers(o)
  {
    if !o.EndM? {
      JsonItemsValid(o.m.key);
      JsonValid(o.m.v);
    }
    if o.MoreM? { JsonMembersValid(o.rest); }
  }
}
