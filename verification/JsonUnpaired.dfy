/** Whole texts with arbitrary `\u` escapes in their strings and keys: when the decoder takes them. */
module JsonUnpaired {
  import opened Bytes
  import opened LuaValue
  import opened Numerals
  import opened JsonLexis
  import opened JsonSpec
  import opened JsonGrammar
  import opened JsonComplete
  import opened JsonSurrogates

  // ---------------------------------------------------------------- trees

  /** The grammar of sections 2 to 7 of RFC 8259 with each `\u` escape on its own, paired or not. */
  ghost predicate GrammaticalTree(x: Syntax) {
    match x
    case SNull => true
    case SBool(_) => true
    case SNumber(t) => exists n: Numeral :: n.IsJson() && n.Text() == t
    case SString(q, items) => q == QUOTE && Grammatical(items)
    case SArray(a) => GrammaticalElements(a)
    case SObject(o) => GrammaticalMembers(o)
  }

  ghost predicate GrammaticalElements(a: Elements) {
    match a
    case End(w) => Blank(w)
    case Last(w, v, w') => Blank(w) && GrammaticalTree(v) && Blank(w')
    case More(w, v, w', rest) =>
      Blank(w) && GrammaticalTree(v) && Blank(w') && GrammaticalElements(rest) && !rest.End?
  }

  ghost predicate GrammaticalMember(m: Member) {
    && Blank(m.w) && m.quote == QUOTE && Grammatical(m.key)
    && Blank(m.w1) && Blank(m.w2) && GrammaticalTree(m.v) && Blank(m.w')
  }

  ghost predicate GrammaticalMembers(o: Members) {
    match o
    case EndM(w) => Blank(w)
    case LastM(m) => GrammaticalMember(m)
    case MoreM(m, rest) => GrammaticalMember(m) && GrammaticalMembers(rest) && !rest.EndM?
  }

  /** The tree with the escapes of every string and key merged. */
  function MergeTree(x: Syntax): Syntax {
    match x
    case SString(q, items) => SString(q, Merge(items))
    case SArray(a) => SArray(MergeElements(a))
    case SObject(o) => SObject(MergeMembers(o))
    case _ => x
  }

  function MergeElements(a: Elements): Elements {
    match a
    case End(w) => a
    case Last(w, v, w') => Last(w, MergeTree(v), w')
    case More(w, v, w', rest) => More(w, MergeTree(v), w', MergeElements(rest))
  }

  function MergeMember(m: Member): Member { m.(key := Merge(m.key), v := MergeTree(m.v)) }

  function MergeMembers(o: Members): Members {
    match o
    case EndM(w) => o
    case LastM(m) => LastM(MergeMember(m))
    case MoreM(m, rest) => MoreM(MergeMember(m), MergeMembers(rest))
  }

  /** Every merged pair of every string and key is within Unicode. */
  predicate FitsTree(x: Syntax) {
    match x
    case SString(_, items) => Fits(items)
    case SArray(a) => FitsElements(a)
    case SObject(o) => FitsMembers(o)
    case _ => true
  }

  predicate FitsElements(a: Elements) {
    match a
    case End(_) => true
    case Last(_, v, _) => FitsTree(v)
    case More(_, v, _, rest) => FitsTree(v) && FitsElements(rest)
  }

  predicate FitsMember(m: Member) { Fits(m.key) && FitsTree(m.v) }

  predicate FitsMembers(o: Members) {
    match o
    case EndM(_) => true
    case LastM(m) => FitsMember(m)
    case MoreM(m, rest) => FitsMember(m) && FitsMembers(rest)
  }

  /** The shape merging leaves: as `Valid`, without the bound on code points. */
  predicate MergedTree(x: Syntax) {
    match x
    case SString(q, items) => q == QUOTE && Merged(items)
    case SArray(a) => MergedElements(a)
    case SObject(o) => MergedMembers(o)
    case _ => Valid(x)
  }

  predicate MergedElements(a: Elements) {
    match a
    case End(w) => Blank(w)
    case Last(w, v, w') => Blank(w) && MergedTree(v) && Blank(w')
    case More(w, v, w', rest) => Blank(w) && MergedTree(v) && Blank(w') && MergedElements(rest)
  }

  predicate MergedMember(m: Member) {
    && Blank(m.w) && m.quote == QUOTE && Merged(m.key) && Blank(m.w1) && Blank(m.w2) && MergedTree(m.v) && Blank(m.w')
  }

  predicate MergedMembers(o: Members) {
    match o
    case EndM(w) => Blank(w)
    case LastM(m) => MergedMember(m)
    case MoreM(m, rest) => MergedMember(m) && MergedMembers(rest)
  }

  // ---------------------------------------------------------------- merging keeps the text

  lemma NumberIsValid(t: bytes)
    requires exists n: Numeral :: n.IsJson() && n.Text() == t
    ensures Valid(SNumber(t))
  {
    var n: Numeral :| n.IsJson() && n.Text() == t;
    JsonNumberValid(n);
  }

  lemma {:induction false} MergeTreeShape(x: Syntax)
    requires GrammaticalTree(x)
    ensures MergedTree(MergeTree(x)) && Text(MergeTree(x)) == Text(x)
    decreases x
  {
    hide Merge, Merged, ItemsText, Grammatical, ElementsText, MembersText;
    match x
    case SNumber(t) => NumberIsValid(t);
    case SString(_, items) => MergeShape(items);
    case SArray(a) => MergeElementsShape(a);
    case SObject(o) => MergeMembersShape(o);
    case _ =>
  }

  lemma {:induction false} MergeElementsShape(a: Elements)
    requires GrammaticalElements(a)
    ensures MergedElements(MergeElements(a)) && ElementsText(MergeElements(a)) == ElementsText(a)
    decreases a
  {
    hide Text, MergeTree, MergedTree, GrammaticalTree, Blank;
    if !a.End? { MergeTreeShape(a.v); }
    if a.More? { MergeElementsShape(a.rest); }
  }

  lemma {:induction false} MergeMemberShape(m: Member)
    requires GrammaticalMember(m)
    ensures MergedMember(MergeMember(m)) && MemberText(MergeMember(m)) == MemberText(m)
    decreases m
  {
    hide Text, MergeTree, MergedTree, GrammaticalTree, Blank, Merge, Merged, ItemsText, Grammatical;
    MergeShape(m.key);
    MergeTreeShape(m.v);
  }

  lemma {:induction false} MergeMembersShape(o: Members)
    requires GrammaticalMembers(o)
    ensures MergedMembers(MergeMembers(o)) && MembersText(MergeMembers(o)) == MembersText(o)
    decreases o
  {
    hide MemberText, MergedMember, GrammaticalMember, Blank;
    if !o.EndM? { MergeMemberShape(o.m); }
    if o.MoreM? { MergeMembersShape(o.rest); }
  }

  // ---------------------------------------------------------------- trees that fit

  lemma {:induction false} FittingIsValid(x: Syntax)
    requires MergedTree(x)
    ensures Valid(x) <==> FitsTree(x)
    decreases x
  {
    hide Merged, Fits, ValidItems;
    match x
    case SString(_, items) => MergedValid(items);
    case SArray(a) => FittingElements(a);
    case SObject(o) => FittingMembers(o);
    case _ =>
  }

  lemma {:induction false} FittingElements(a: Elements)
    requires MergedElements(a)
    ensures ValidElements(a) <==> FitsElements(a)
    decreases a
  {
    hide Valid, MergedTree, FitsTree, Blank;
    if !a.End? { FittingIsValid(a.v); }
    if a.More? { FittingElements(a.rest); }
  }

  lemma {:induction false} FittingMember(m: Member)
    requires MergedMember(m)
    ensures ValidMember(m) <==> FitsMember(m)
    decreases m
  {
    hide Valid, MergedTree, FitsTree, Blank, Merged, Fits, ValidItems;
    MergedValid(m.key);
    FittingIsValid(m.v);
  }

  lemma {:induction false} FittingMembers(o: Members)
    requires MergedMembers(o)
    ensures ValidMembers(o) <==> FitsMembers(o)
    decreases o
  {
    hide ValidMember, MergedMember, FitsMember, Blank;
    if !o.EndM? { FittingMember(o.m); }
    if o.MoreM? { FittingMembers(o.rest); }
  }

  // ---------------------------------------------------------------- trees that do not

  lemma TreeStart(x: Syntax)
    requires MergedTree(x) && !FitsTree(x)
    ensures Text(x) != [] && (Text(x)[0] == QUOTE || Text(x)[0] == LBRACKET || Text(x)[0] == LBRACE)
  {}

  lemma SkipToTree(s: bytes, i: nat, w: bytes, x: Syntax)
    requires At(s, i, w) && Blank(w) && MergedTree(x) && !FitsTree(x) && At(s, i + |w|, Text(x))
    ensures NextChar(s, i, SPACES, true) == i + |w| < |s| && s[i + |w|] != RBRACKET && s[i + |w|] != RBRACE
  {
    hide Text, MergedTree, FitsTree;
    TreeStart(x);
    assert s[i + |w|] == Text(x)[0];
    SkipBlank(s, i, w);
  }

  lemma ArrayFails(s: bytes, i: nat, n: nat, t: map<Key, Value>, j: nat)
    requires i <= |s| && NextChar(s, i, SPACES, true) == j && j < |s| && s[j] != RBRACKET && Parse(s, j).Err?
    ensures ParseArray(s, i, n, t).Err?
  {
    hide Parse, NextChar;
  }

  lemma ObjectFails(s: bytes, i: nat, t: map<Key, Value>, j: nat)
    requires i <= |s| && NextChar(s, i, SPACES, true) == j && j < |s| && s[j] != RBRACE && ParseMember(s, j).Err?
    ensures ParseObject(s, i, t).Err?
  {
    hide ParseMember, NextChar;
  }

  lemma {:induction false} FailsValue(s: bytes, i: nat, x: Syntax)
    requires MergedTree(x) && !FitsTree(x) && At(s, i, Text(x))
    ensures i <= |s| && Parse(s, i).Err?
    decreases x
  {
    hide At, Parse, ParseArray, ParseObject, StringRest, ElementsText, MembersText, Merged, Fits, ItemsText;
    match x
    case SString(q, items) =>
      AtByte(s, i, QUOTE, ItemsText(items) + [QUOTE]);
      OverflowFails(s, i + 1, items, i);
      ParseDispatch(s, i);
    case SArray(a) =>
      AtByte(s, i, LBRACKET, ElementsText(a));
      FailsElements(s, i + 1, a, 1, map[]);
      ParseDispatch(s, i);
    case SObject(o) =>
      AtByte(s, i, LBRACE, MembersText(o));
      FailsMembers(s, i + 1, o, map[]);
      ParseDispatch(s, i);
    case _ =>
  }

  lemma {:induction false} FailsElements(s: bytes, i: nat, a: Elements, n: nat, t: map<Key, Value>)
    requires MergedElements(a) && !FitsElements(a) && At(s, i, ElementsText(a))
    ensures i <= |s| && ParseArray(s, i, n, t).Err?
    decreases a
  {
    hide At, Text, Valid, Blank, Parse, ParseArray, NextChar, Denote, EndsToken, Put, MergedTree, FitsTree;
    AtBound(s, i, ElementsText(a));
    if !a.End? {
      var tail := if a.More? then [COMMA] + ElementsText(a.rest) else [RBRACKET];
      var j := i + |a.w|;
      AtFour(s, i, a.w, Text(a.v), a.w', tail);
      if !FitsTree(a.v) {
        SkipToTree(s, i, a.w, a.v);
        FailsValue(s, j, a.v);
        ArrayFails(s, i, n, t, j);
      } else if a.More? {
        FittingIsValid(a.v);
        CompleteElement(s, i, a.w, a.v, a.w', tail);
        CompleteValue(s, j, a.v);
        var m := j + |Text(a.v)| + |a.w'|;
        AtByte(s, m, COMMA, ElementsText(a.rest));
        ArrayTurn(s, i, n, t, j, Denote(a.v), m - |a.w'|, m);
        FailsElements(s, m + 1, a.rest, n + 1, Put(t, KNum(n as real), Denote(a.v)));
      }
    }
  }

  lemma MemberParts(s: bytes, j: nat, m: Member)
    requires At(s, j, MemberText(m)) && m.quote == QUOTE
    ensures var k := j + |StringText(m.quote, m.key)|; var c := k + |m.w1|;
            && j < |s| && s[j] == QUOTE && At(s, j, StringText(m.quote, m.key))
            && At(s, j + 1, ItemsText(m.key) + [QUOTE])
            && At(s, k, m.w1) && c < |s| && s[c] == COLON && At(s, c + 1, m.w2) && At(s, c + 1 + |m.w2|, Text(m.v))
  {
    hide At, Text, ItemsText;
    var k := j + |StringText(m.quote, m.key)|;
    var tail := [COLON] + (m.w2 + Text(m.v));
    AtSplit(s, j, StringText(m.quote, m.key), m.w1 + tail);
    AtByte(s, j, QUOTE, ItemsText(m.key) + [QUOTE]);
    AtSplit(s, k, m.w1, tail);
    AtByte(s, k + |m.w1|, COLON, m.w2 + Text(m.v));
    AtSplit(s, k + |m.w1| + 1, m.w2, Text(m.v));
  }

  lemma {:induction false} FailsMember(s: bytes, j: nat, m: Member)
    requires MergedMember(m) && !FitsMember(m) && At(s, j, MemberText(m))
    ensures j < |s| && s[j] == QUOTE && ParseMember(s, j).Err?
    decreases m, 0
  {
    hide At, Text, Blank, Parse, NextChar, StringRest, ItemsText, StringText, ItemsBytes, ValidItems, Merged, Fits,
         MergedTree, FitsTree;
    MemberParts(s, j, m);
    var k := j + |StringText(m.quote, m.key)|;
    var c := k + |m.w1|;
    if !Fits(m.key) {
      OverflowFails(s, j + 1, m.key, j);
    } else {
      MergedValid(m.key);
      CompleteStringText(s, j, m.quote, m.key);
      SkipTo(s, k, m.w1);
      SkipToTree(s, c + 1, m.w2, m.v);
      FailsValue(s, c + 1 + |m.w2|, m.v);
    }
  }

  lemma SkipToMember(s: bytes, i: nat, m: Member, tail: bytes)
    requires At(s, i, m.w + (MemberText(m) + (m.w' + tail))) && Blank(m.w) && m.quote == QUOTE
    ensures var j := i + |m.w|;
            i <= |s| && NextChar(s, i, SPACES, true) == j < |s| && s[j] == QUOTE && At(s, j, MemberText(m))
  {
    hide Text, ItemsText;
    AtFour(s, i, m.w, MemberText(m), m.w', tail);
    assert s[i + |m.w|] == MemberText(m)[0];
    SkipBlank(s, i, m.w);
  }

  lemma {:induction false} FailsMembers(s: bytes, i: nat, o: Members, t: map<Key, Value>)
    requires MergedMembers(o) && !FitsMembers(o) && At(s, i, MembersText(o))
    ensures i <= |s| && ParseObject(s, i, t).Err?
    decreases o
  {
    hide At, MemberText, ValidMember, Blank, ParseMember, ParseObject, NextChar, Denote, EndsToken, Put, ItemsBytes,
         ValidItems, FitsMember, MergedTree, Merged;
    AtBound(s, i, MembersText(o));
    if !o.EndM? {
      var m := o.m;
      var tail := if o.MoreM? then [COMMA] + MembersText(o.rest) else [RBRACE];
      if !FitsMember(m) {
        SkipToMember(s, i, m, tail);
        FailsMember(s, i + |m.w|, m);
        ObjectFails(s, i, t, i + |m.w|);
      } else if o.MoreM? {
        FittingMember(m);
        var e := i + |m.w| + |MemberText(m)| + |m.w'|;
        CompletePair(s, i, m, tail);
        AtByte(s, e, COMMA, MembersText(o.rest));
        MemberTurn(s, i, m, t);
        FailsMembers(s, e + 1, o.rest, DenoteMember(m, t));
      }
    }
  }

  // ---------------------------------------------------------------- whole texts

  /** A text of the RFC's grammar, with whatever `\u` escapes in its strings and keys, is accepted if and only
      if no high surrogate in it is followed by an escape that takes the pair above U+10FFFF; the value is
      that of the merged tree. */
  lemma GrammaticalTextExact(w: bytes, x: Syntax, w': bytes)
    requires Blank(w) && GrammaticalTree(x) && Blank(w')
    ensures Decode(w + (Text(x) + w')).Ok? <==> FitsTree(MergeTree(x))
    ensures FitsTree(MergeTree(x)) ==>
              Valid(MergeTree(x)) && Decode(w + (Text(x) + w')).value == Denote(MergeTree(x))
  {
    hide Text, Valid, Denote, GrammaticalTree, MergeTree, MergedTree, FitsTree, At, Parse, Decode;
    var m, s := MergeTree(x), w + (Text(x) + w');
    MergeTreeShape(x);
    FittingIsValid(m);
    if FitsTree(m) {
      DecodeComplete(w, m, w');
    } else {
      AtSelf(s);
      AtSplit(s, 0, w, Text(m) + w');
      AtSplit(s, |w|, Text(m), w');
      SkipToTree(s, 0, w, m);
      FailsValue(s, |w|, m);
      DecodeFails(s, |w|);
    }
  }

  lemma DecodeFails(s: bytes, j: nat)
    requires NextChar(s, 0, SPACES, true) == j <= |s| && Parse(s, j).Err?
    ensures Decode(s).Err?
  {
    hide Parse, NextChar;
  }
}
