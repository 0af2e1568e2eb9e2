/** What json.encode returns for a value of a Lua heap, where tables are shared and may be cyclic. */
module JsonEncodeSpec {
  import opened Options
  import opened Bytes
  import opened LuaValue
  import opened Numerals
  import opened JsonLexis

  /** Numbers are integers below 10^14 in absolute value, which `%.14g` prints exactly, or NaN and
      the infinities. `HOther` stands for functions, threads and userdata. */
  datatype HVal = HNil | HBool(b: bool) | HInt(n: int) | HNotFinite | HStr(s: bytes) | HRef(id: nat) | HOther

  /** A table's entries in the order `pairs` yields them. */
  datatype Entries = Empty | Entry(key: Key, val: HVal, rest: Entries)

  /** `border` is what `#` returns: any border of the table, which need not be unique. */
  datatype HTab = HTab(entries: Entries, border: nat)

  type Heap = map<nat, HTab>

  function Lookup(e: Entries, k: Key): Option<HVal> {
    match e
    case Empty => None
    case Entry(k', v, rest) => if k' == k then Some(v) else Lookup(rest, k)
  }

  function Length(e: Entries): nat {
    if e.Empty? then 0 else 1 + Length(e.rest)
  }

  function Index(i: nat): Key { KNum(i as real) }

  predicate HasIndex(t: HTab, i: nat) { Lookup(t.entries, Index(i)).Some? }

  predicate IsBorder(t: HTab) {
    (if t.border == 0 then !HasIndex(t, 1) else HasIndex(t, t.border) && !HasIndex(t, t.border + 1))
  }

  predicate ValOk(h: Heap, v: HVal) {
    && (v.HRef? ==> v.id in h)
    && (v.HInt? ==> -100_000_000_000_000 < v.n < 100_000_000_000_000)
  }

  /** Keys are distinct, no stored value is nil, and references lead into the heap. */
  predicate EntriesOk(h: Heap, e: Entries) {
    e.Entry? ==> Lookup(e.rest, e.key).None? && !e.val.HNil? && ValOk(h, e.val) && EntriesOk(h, e.rest)
  }

  predicate WellFormed(h: Heap) {
    forall id :: id in h ==> EntriesOk(h, h[id].entries) && IsBorder(h[id])
  }

  // ---------------------------------------------------------------- scalars

  function HexLower(d: nat): byte
    requires d < 16
  {
    if d < 10 then 48 + d else 87 + d
  }

  /** escape_char: the short escape, or `u%04x`. */
  function EscapeChar(c: byte): bytes
    requires c < 32 || c == BACKSLASH || c == QUOTE
  {
    [BACKSLASH] +
    if c == BACKSLASH || c == QUOTE then [c]
    else if c == 8 then [98]
    else if c == 12 then [102]
    else if c == 10 then [110]
    else if c == 13 then [114]
    else if c == 9 then [116]
    else [LOWER_U, 48, 48, HexLower(c / 16), HexLower(c % 16)]
  }

  function EscapeAll(s: bytes): bytes {
    if s == [] then []
    else (if s[0] < 32 || s[0] == BACKSLASH || s[0] == QUOTE then EscapeChar(s[0]) else [s[0]]) + EscapeAll(s[1..])
  }

  function EncodeString(s: bytes): bytes { [QUOTE] + (EscapeAll(s) + [QUOTE]) }

  // ---------------------------------------------------------------- tables

  datatype Failure = CircularReference | MixedKeys | SparseArray | NumberNotFinite | UnexpectedType

  datatype Result<+T> = Good(value: T) | Bad(why: Failure)

  function AllNumeric(e: Entries): bool { e.Entry? ==> e.key.KNum? && AllNumeric(e.rest) }

  function AllStrings(e: Entries): bool { e.Entry? ==> e.key.KStr? && AllStrings(e.rest) }

  /** The branch encode_table takes. */
  predicate ArrayLike(t: HTab) { HasIndex(t, 1) || t.entries.Empty? }

  /** table.concat(ps, ",") */
  function Concat(ps: seq<bytes>): bytes {
    if ps == [] then [] else if |ps| == 1 then ps[0] else ps[0] + ([COMMA] + Concat(ps[1..]))
  }

  function Encode(h: Heap, v: HVal, stack: set<nat>): Result<bytes>
    requires WellFormed(h) && ValOk(h, v)
    decreases h.Keys - stack, 1
  {
    match v
    case HNil => Good(NULL)
    case HBool(b) => Good(if b then TRUE else FALSE)
    case HInt(n) => Good(IntNumeral(n).Text())
    case HNotFinite => Bad(NumberNotFinite)
    case HStr(s) => Good(EncodeString(s))
    case HRef(id) => EncodeTable(h, id, stack)
    case HOther => Bad(UnexpectedType)
  }

  function EncodeTable(h: Heap, id: nat, stack: set<nat>): Result<bytes>
    requires WellFormed(h) && id in h
    decreases h.Keys - stack, 0
  {
    var t := h[id];
    if id in stack then Bad(CircularReference)
    else if ArrayLike(t) then
      if !AllNumeric(t.entries) then Bad(MixedKeys)
      else if Length(t.entries) != t.border then Bad(SparseArray)
      else
        match EncodeItems(h, id, 1, stack + {id})
        case Good(ps) => Good([LBRACKET] + (Concat(ps) + [RBRACKET]))
        case Bad(why) => Bad(why)
    else
      match EncodeFields(h, t.entries, stack + {id})
      case Good(ps) => Good([LBRACE] + (Concat(ps) + [RBRACE]))
      case Bad(why) => Bad(why)
  }

  /** The ipairs loop from index `i` on. */
  function EncodeItems(h: Heap, id: nat, i: nat, stack: set<nat>): Result<seq<bytes>>
    requires WellFormed(h) && id in h && 1 <= i <= h[id].border + 1
    decreases h.Keys - stack, 2, h[id].border + 1 - i
  {
    var v := Lookup(h[id].entries, Index(i));
    if v.None? then Good([])
    else
      LookupOk(h, h[id].entries, Index(i));
      match Encode(h, v.value, stack)
      case Bad(why) => Bad(why)
      case Good(p) =>
        match EncodeItems(h, id, i + 1, stack)
        case Bad(why) => Bad(why)
        case Good(ps) => Good([p] + ps)
  }

  /** The pairs loop over the entries that are left. */
  function EncodeFields(h: Heap, e: Entries, stack: set<nat>): Result<seq<bytes>>
    requires WellFormed(h) && EntriesOk(h, e)
    decreases h.Keys - stack, 2, e
  {
    if e.Empty? then Good([])
    else if !e.key.KStr? then Bad(MixedKeys)
    else
      match Encode(h, e.val, stack)
      case Bad(why) => Bad(why)
      case Good(p) =>
        match EncodeFields(h, e.rest, stack)
        case Bad(why) => Bad(why)
        case Good(ps) => Good([EncodeString(e.key.s) + ([COLON] + p)] + ps)
  }

  lemma {:induction false} LookupOk(h: Heap, e: Entries, k: Key)
    requires EntriesOk(h, e) && Lookup(e, k).Some?
    ensures ValOk(h, Lookup(e, k).value) && !Lookup(e, k).value.HNil?
    decreases e
  {
    if e.key != k { LookupOk(h, e.rest, k); }
  }
}
