// Semantic equality of JSON texts (pkgs/fort-provider/main.go, jsonEqual): both texts are
// parsed and printed with sorted member names, and the printed texts are compared. The text
// parser is an input; everything after it is modelled.
module JsonEquality {
  import opened Wrappers
  import opened Strings

  predicate NumberChar(c: char) {
    '0' <= c <= '9' || c in "+-.eE"
  }

  /** Numbers are opaque atoms, printed as such. */
  type Number = s: string | s != "" && ('0' <= s[0] <= '9' || s[0] == '-') && forall c :: c in s ==> NumberChar(c)
    witness "0"

  /** What a text denotes: object members form a map. */
  datatype Value =
    | Null
    | Bool(b: bool)
    | Num(text: Number)
    | Str(s: string)
    | Arr(items: seq<Value>)
    | Obj(members: map<string, Value>)

  datatype Member = Member(name: string, doc: Doc)

  /** A parsed text: object members in textual order, possibly with repeated names. */
  datatype Doc =
    | DNull
    | DBool(b: bool)
    | DNum(text: Number)
    | DStr(s: string)
    | DArr(docs: seq<Doc>)
    | DObj(entries: seq<Member>)

  /** Decoding into Go's generic values: a repeated name overwrites. */
  function Denote(d: Doc): Value {
    match d
    case DNull => Null
    case DBool(b) => Bool(b)
    case DNum(text) => Num(text)
    case DStr(s) => Str(s)
    case DArr(docs) => Arr(seq(|docs|, i requires 0 <= i < |docs| => Denote(docs[i])))
    case DObj(entries) => Obj(DenoteMembers(d, entries))
  }

  function DenoteMembers(context: Doc, entries: seq<Member>): map<string, Value>
    requires forall m :: m in entries ==> m.doc < context
    decreases context, |entries|
  {
    if entries == [] then map[]
    else
      var last := entries[|entries| - 1];
      assert last in entries;
      assert forall m :: m in entries[..|entries| - 1] ==> m in entries;
      DenoteMembers(context, entries[..|entries| - 1])[last.name := Denote(last.doc)]
  }

  // ---- The sorted-key printer ----

  function HexDigit(n: int): char
    requires 0 <= n < 16
  {
    "0123456789abcdef"[n]
  }

  function Hex4(n: int): string
    requires 0 <= n < 0x10000
  {
    [HexDigit(n / 0x1000), HexDigit(n / 0x100 % 0x10), HexDigit(n / 0x10 % 0x10), HexDigit(n % 0x10)]
  }

  predicate EscapedByCode(c: char) {
    c < ' ' || c in "<>&" || c == '\U{2028}' || c == '\U{2029}'
  }

  function EscapeChar(c: char): (r: string)
    ensures r != "" && r[0] != '"'
  {
    if c == '"' then "\\\""
    else if c == '\\' then "\\\\"
    else if c == '\n' then "\\n"
    else if c == '\r' then "\\r"
    else if c == '\t' then "\\t"
    else if EscapedByCode(c) then "\\u" + Hex4(c as int)
    else [c]
  }

  function Escape(s: string): string {
    if s == "" then "" else EscapeChar(s[0]) + Escape(s[1..])
  }

  function Quote(s: string): string {
    "\"" + Escape(s) + "\""
  }

  /** Compact encoding with object members sorted by name. */
  function Print(v: Value): string
    decreases v
  {
    match v
    case Null => "null"
    case Bool(b) => if b then "true" else "false"
    case Num(text) => text
    case Str(s) => Quote(s)
    case Arr(items) => "[" + PrintItems(v, items, true) + "]"
    case Obj(members) => "{" + PrintMembers(v, SortedNames(members.Keys), true) + "}"
  }

  function PrintItems(context: Value, items: seq<Value>, first: bool): string
    requires forall i :: 0 <= i < |items| ==> items[i] < context
    decreases context, |items|
  {
    if items == [] then ""
    else (if first then "" else ",") + Print(items[0]) + PrintItems(context, items[1..], false)
  }

  function PrintMembers(v: Value, names: seq<string>, first: bool): string
    requires v.Obj? && forall n :: n in names ==> n in v.members
    decreases v, |names|
  {
    if names == [] then ""
    else
      assert names[0] in names;
      (if first then "" else ",") + Quote(names[0]) + ":" + Print(v.members[names[0]])
      + PrintMembers(v, names[1..], false)
  }

  // ---- The comparison ----

  /** `parse` is what the JSON parser makes of a text; None is a syntax error. */
  predicate JsonEqual(parse: string -> Option<Doc>, a: string, b: string) {
    if a == "" && b == "" then true
    else if a == "" || b == "" then false
    else if a == b then true
    else
      var x, y := parse(a), parse(b);
      x.Some? && y.Some? && Print(Denote(x.value)) == Print(Denote(y.value))
  }

  // ---- Injectivity of the printer ----

  lemma ConcatCancel(p: string, s: string, t: string)
    requires p + s == p + t
    ensures s == t
  {
    assert s == (p + s)[|p|..];
    assert t == (p + t)[|p|..];
  }

  lemma Concat4(a: string, b: string, c: string, d: string)
    ensures a + b + c + d == a + (b + c + d)
  {
  }

  lemma ConcatPair(a: string, b: string, c: string, d: string, e: string)
    ensures a + b + c + d + e == a + (b + (c + d + e))
  {
  }

  lemma HexDigitInjective(m: int, n: int)
    requires 0 <= m < 16 && 0 <= n < 16 && HexDigit(m) == HexDigit(n)
    ensures m == n
  {
  }

  lemma Hex4Injective(m: int, n: int)
    requires 0 <= m < 0x10000 && 0 <= n < 0x10000 && Hex4(m) == Hex4(n)
    ensures m == n
  {
    var x, y := Hex4(m), Hex4(n);
    assert x[0] == y[0] && x[1] == y[1] && x[2] == y[2] && x[3] == y[3];
    HexDigitInjective(m / 0x1000, n / 0x1000);
    HexDigitInjective(m / 0x100 % 0x10, n / 0x100 % 0x10);
    HexDigitInjective(m / 0x10 % 0x10, n / 0x10 % 0x10);
    HexDigitInjective(m % 0x10, n % 0x10);
    HexDigitsAdd(m);
    HexDigitsAdd(n);
  }

  lemma HexDigitsAdd(n: int)
    requires 0 <= n < 0x10000
    ensures n == n / 0x1000 * 0x1000 + n / 0x100 % 0x10 * 0x100 + n / 0x10 % 0x10 * 0x10 + n % 0x10
  {
    assert n / 0x100 == n / 0x1000 * 0x10 + n / 0x100 % 0x10;
    assert n / 0x10 == n / 0x100 * 0x10 + n / 0x10 % 0x10;
  }

  /** The escapes form a prefix code. */
  lemma EscapeCharPrefixFree(c: char, d: char, s: string, t: string)
    requires EscapeChar(c) + s == EscapeChar(d) + t
    ensures c == d && s == t
  {
    var x, y := EscapeChar(c), EscapeChar(d);
    assert x[0] == (x + s)[0] == y[0];
    if |x| > 1 {
      assert x[1] == (x + s)[1];
      assert |y| > 1;
      assert y[1] == (y + t)[1];
      if |x| == 6 {
        assert |y| == 6;
        assert x == (x + s)[..6] == (y + t)[..6] == y;
        assert Hex4(c as int) == x[2..] == y[2..] == Hex4(d as int);
        Hex4Injective(c as int, d as int);
      }
    }
    ConcatCancel(x, s, t);
  }

  /** An escaped string, its closing quote, and what comes after. */
  function Quoted(a: string, rest: string): string {
    Escape(a) + "\"" + rest
  }

  lemma QuotedUnfold(a: string, rest: string)
    ensures a == "" ==> Quoted(a, rest) == "\"" + rest
    ensures a != "" ==> Quoted(a, rest) == EscapeChar(a[0]) + Quoted(a[1..], rest)
    ensures Quoted(a, rest) != "" && (a == "" <==> Quoted(a, rest)[0] == '"')
  {
    if a != "" {
      var c, tail := EscapeChar(a[0]), Escape(a[1..]);
      assert c + tail + "\"" + rest == c + (tail + "\"" + rest);
    }
  }

  lemma {:induction false} EscapeInjective(a: string, b: string, s: string, t: string)
    requires Quoted(a, s) == Quoted(b, t)
    ensures a == b && s == t
  {
    QuotedUnfold(a, s);
    QuotedUnfold(b, t);
    if a == "" {
      ConcatCancel("\"", s, t);
    } else {
      EscapeCharPrefixFree(a[0], b[0], Quoted(a[1..], s), Quoted(b[1..], t));
      EscapeInjective(a[1..], b[1..], s, t);
      assert a == [a[0]] + a[1..] && b == [b[0]] + b[1..];
    }
  }

  lemma QuoteInjective(a: string, b: string, s: string, t: string)
    requires Quote(a) + s == Quote(b) + t
    ensures a == b && s == t
  {
    Concat4("\"", Escape(a), "\"", s);
    Concat4("\"", Escape(b), "\"", t);
    ConcatCancel("\"", Quoted(a, s), Quoted(b, t));
    EscapeInjective(a, b, s, t);
  }

  /** What can follow a value inside a printed text. */
  predicate Follows(s: string) {
    s == "" || s[0] in ",]}"
  }

  lemma NumberNotShorter(a: Number, b: Number, s: string, t: string)
    requires a + s == b + t && Follows(s)
    ensures |b| <= |a|
  {
    var x := a + s;
    assert |x| > |a| ==> x[|a|] == s[0];
    assert forall i :: 0 <= i < |b| ==> x[i] == b[i] && b[i] in b;
  }

  lemma NumberPrefix(a: Number, b: Number, s: string, t: string)
    requires a + s == b + t && Follows(s) && Follows(t)
    ensures a == b && s == t
  {
    NumberNotShorter(a, b, s, t);
    NumberNotShorter(b, a, t, s);
    assert a == (a + s)[..|a|] == (b + t)[..|b|] == b;
    ConcatCancel(a, s, t);
  }

  /** The first character of a printed value determines its kind. */
  function Kind(c: char): int {
    if c == 'n' then 0
    else if c == 't' || c == 'f' then 1
    else if '0' <= c <= '9' || c == '-' then 2
    else if c == '"' then 3
    else if c == '[' then 4
    else 5
  }

  function KindOf(v: Value): int {
    match v
    case Null => 0
    case Bool(_) => 1
    case Num(_) => 2
    case Str(_) => 3
    case Arr(_) => 4
    case Obj(_) => 5
  }

  lemma PrintHead(v: Value, s: string)
    ensures Print(v) != "" && (Print(v) + s)[0] == Print(v)[0] && Kind(Print(v)[0]) == KindOf(v)
    ensures Print(v)[0] !in ",]}"
  {
  }

  function Separator(first: bool): string {
    if first then "" else ","
  }

  /** The rest of an array's text, and what comes after. */
  ghost function ItemsText(v: Value, items: seq<Value>, first: bool, rest: string): string
    requires forall i :: 0 <= i < |items| ==> items[i] < v
  {
    PrintItems(v, items, first) + "]" + rest
  }

  lemma ItemsUnfold(v: Value, items: seq<Value>, first: bool, rest: string)
    requires forall i :: 0 <= i < |items| ==> items[i] < v
    ensures items == [] ==> ItemsText(v, items, first, rest) == "]" + rest
    ensures items != [] ==> ItemsText(v, items, first, rest) ==
                            Separator(first) + (Print(items[0]) + ItemsText(v, items[1..], false, rest))
    ensures ItemsText(v, items, first, rest) != "" && (items == [] <==> ItemsText(v, items, first, rest)[0] == ']')
    ensures !first ==> Follows(ItemsText(v, items, first, rest))
  {
    if items != [] {
      var sep, head, tail := Separator(first), Print(items[0]), PrintItems(v, items[1..], false);
      ConcatPair(sep, head, tail, "]", rest);
      PrintHead(items[0], tail + "]" + rest);
    }
  }

  /** The rest of an object's text, and what comes after. */
  ghost function MembersText(v: Value, names: seq<string>, first: bool, rest: string): string
    requires v.Obj? && forall n :: n in names ==> n in v.members
  {
    PrintMembers(v, names, first) + "}" + rest
  }

  lemma MembersUnfold(v: Value, names: seq<string>, first: bool, rest: string)
    requires v.Obj? && forall n :: n in names ==> n in v.members
    ensures names == [] ==> MembersText(v, names, first, rest) == "}" + rest
    ensures names != [] ==>
      names[0] in v.members &&
      MembersText(v, names, first, rest) ==
      Separator(first) + (Quote(names[0]) + (":" + (Print(v.members[names[0]]) + MembersText(v, names[1..], false, rest))))
    ensures MembersText(v, names, first, rest) != "" && (names == [] <==> MembersText(v, names, first, rest)[0] == '}')
    ensures !first ==> Follows(MembersText(v, names, first, rest))
  {
    if names != [] {
      assert names[0] in names;
      var sep, name, head, tail := Separator(first), Quote(names[0]), Print(v.members[names[0]]), PrintMembers(v, names[1..], false);
      ConcatMember(sep, name, head, tail, rest);
      assert PrintMembers(v, names, first) == sep + name + ":" + head + tail;
    }
  }

  lemma ConcatMember(sep: string, name: string, head: string, tail: string, rest: string)
    ensures sep + name + ":" + head + tail + "}" + rest == sep + (name + (":" + (head + (tail + "}" + rest))))
  {
  }

  lemma PrintUnfold(v: Value, s: string)
    ensures v.Arr? ==> Print(v) + s == "[" + ItemsText(v, v.items, true, s)
    ensures v.Obj? ==>
      (forall n :: n in SortedNames(v.members.Keys) <==> n in v.members) &&
      Print(v) + s == "{" + MembersText(v, SortedNames(v.members.Keys), true, s)
  {
    if v.Arr? {
      assert "[" + PrintItems(v, v.items, true) + "]" + s == "[" + (PrintItems(v, v.items, true) + "]" + s);
    } else if v.Obj? {
      var names := SortedNames(v.members.Keys);
      assert forall n :: n in names <==> n in Elements(names);
      assert "{" + PrintMembers(v, names, true) + "}" + s == "{" + (PrintMembers(v, names, true) + "}" + s);
    }
  }

  /** Unique decoding: a printed value followed by a delimiter determines the value and the rest. */
  lemma {:induction false} PrintUnique(v: Value, w: Value, s: string, t: string)
    requires Print(v) + s == Print(w) + t && Follows(s) && Follows(t)
    ensures v == w && s == t
    decreases v
  {
    PrintHead(v, s);
    PrintHead(w, t);
    assert KindOf(v) == KindOf(w);
    match v {
      case Null => ConcatCancel("null", s, t);
      case Bool(_) => BoolUnique(v, w, s, t);
      case Num(text) => NumberPrefix(text, w.text, s, t);
      case Str(x) => QuoteInjective(x, w.s, s, t);
      case Arr(_) => ArrayUnique(v, w, s, t);
      case Obj(_) => ObjectUnique(v, w, s, t);
    }
  }

  lemma BoolUnique(v: Value, w: Value, s: string, t: string)
    requires v.Bool? && w.Bool? && Print(v) + s == Print(w) + t
    ensures v == w && s == t
  {
    assert (Print(v) + s)[0] == (if v.b then 't' else 'f');
    assert (Print(w) + t)[0] == (if w.b then 't' else 'f');
    ConcatCancel(Print(v), s, t);
  }

  lemma ArrayUnique(v: Value, w: Value, s: string, t: string)
    requires v.Arr? && w.Arr? && Print(v) + s == Print(w) + t
    ensures v == w && s == t
    decreases v, 1 + |v.items|
  {
    PrintUnfold(v, s);
    PrintUnfold(w, t);
    ConcatCancel("[", ItemsText(v, v.items, true, s), ItemsText(w, w.items, true, t));
    ItemsUnique(v, v.items, w, w.items, true, s, t);
  }

  lemma ObjectUnique(v: Value, w: Value, s: string, t: string)
    requires v.Obj? && w.Obj? && Print(v) + s == Print(w) + t
    ensures v == w && s == t
    decreases v, 1 + |SortedNames(v.members.Keys)|
  {
    PrintUnfold(v, s);
    PrintUnfold(w, t);
    var ks, ls := SortedNames(v.members.Keys), SortedNames(w.members.Keys);
    ConcatCancel("{", MembersText(v, ks, true, s), MembersText(w, ls, true, t));
    MembersUnique(v, ks, w, ls, true, s, t);
    assert v.members.Keys == Elements(ks) == w.members.Keys;
    forall n | n in v.members ensures v.members[n] == w.members[n] {
      assert n in Elements(ks);
    }
  }

  lemma {:induction false} ItemsUnique(v: Value, items: seq<Value>, w: Value, others: seq<Value>, first: bool,
                                       s: string, t: string)
    requires forall i :: 0 <= i < |items| ==> items[i] < v
    requires forall i :: 0 <= i < |others| ==> others[i] < w
    requires ItemsText(v, items, first, s) == ItemsText(w, others, first, t)
    ensures items == others && s == t
    decreases v, |items|
  {
    ItemsUnfold(v, items, first, s);
    ItemsUnfold(w, others, first, t);
    if items == [] {
      ConcatCancel("]", s, t);
    } else {
      var x, y := ItemsText(v, items[1..], false, s), ItemsText(w, others[1..], false, t);
      ConcatCancel(Separator(first), Print(items[0]) + x, Print(others[0]) + y);
      ItemsUnfold(v, items[1..], false, s);
      ItemsUnfold(w, others[1..], false, t);
      PrintUnique(items[0], others[0], x, y);
      ItemsUnique(v, items[1..], w, others[1..], false, s, t);
      assert items == [items[0]] + items[1..] && others == [others[0]] + others[1..];
    }
  }

  lemma {:induction false} MembersUnique(v: Value, ks: seq<string>, w: Value, ls: seq<string>, first: bool,
                                         s: string, t: string)
    requires v.Obj? && (forall n :: n in ks ==> n in v.members)
    requires w.Obj? && (forall n :: n in ls ==> n in w.members)
    requires MembersText(v, ks, first, s) == MembersText(w, ls, first, t)
    ensures ks == ls && s == t
    ensures forall n :: n in ks ==> v.members[n] == w.members[n]
    decreases v, |ks|
  {
    MembersUnfold(v, ks, first, s);
    MembersUnfold(w, ls, first, t);
    if ks == [] {
      ConcatCancel("}", s, t);
    } else {
      var x, y := MembersText(v, ks[1..], false, s), MembersText(w, ls[1..], false, t);
      var px, py := Print(v.members[ks[0]]) + x, Print(w.members[ls[0]]) + y;
      ConcatCancel(Separator(first), Quote(ks[0]) + (":" + px), Quote(ls[0]) + (":" + py));
      QuoteInjective(ks[0], ls[0], ":" + px, ":" + py);
      ConcatCancel(":", px, py);
      MembersUnfold(v, ks[1..], false, s);
      MembersUnfold(w, ls[1..], false, t);
      PrintUnique(v.members[ks[0]], w.members[ls[0]], x, y);
      MembersUnique(v, ks[1..], w, ls[1..], false, s, t);
      assert ks == [ks[0]] + ks[1..] && ls == [ls[0]] + ls[1..];
    }
  }

  // ---- What jsonEqual decides ----

  /** Entry `i` is the last one of its name. */
  predicate LastOf(entries: seq<Member>, i: int) {
    0 <= i < |entries| && forall j :: i < j < |entries| ==> entries[j].name != entries[i].name
  }

  /** Two parsed texts say the same: equal leaves, arrays element by element, objects member by
      member, where of entries with one name the last counts and the order is immaterial. */
  ghost predicate Same(x: Doc, y: Doc)
    decreases x
  {
    match (x, y)
    case (DNull, DNull) => true
    case (DBool(a), DBool(b)) => a == b
    case (DNum(a), DNum(b)) => a == b
    case (DStr(a), DStr(b)) => a == b
    case (DArr(xs), DArr(ys)) => |xs| == |ys| && forall i :: 0 <= i < |xs| ==> Same(xs[i], ys[i])
    case (DObj(xs), DObj(ys)) =>
      && (forall i :: 0 <= i < |xs| ==> NamesEntry(ys, xs[i].name))
      && (forall j :: 0 <= j < |ys| ==> NamesEntry(xs, ys[j].name))
      && (forall i, j :: LastOf(xs, i) && LastOf(ys, j) && xs[i].name == ys[j].name ==> Same(xs[i].doc, ys[j].doc))
    case _ => false
  }

  lemma {:induction false} SameIffDenote(x: Doc, y: Doc)
    ensures Same(x, y) <==> Denote(x) == Denote(y)
    decreases x
  {
    match (x, y) {
      case (DArr(xs), DArr(ys)) => SameArrays(x, y);
      case (DObj(xs), DObj(ys)) => SameObjects(x, y);
      case _ =>
    }
  }

  lemma {:induction false} SameArrays(x: Doc, y: Doc)
    requires x.DArr? && y.DArr?
    ensures Same(x, y) <==> Denote(x) == Denote(y)
    decreases x, 0
  {
    var v, w := Denote(x).items, Denote(y).items;
    assert |v| == |x.docs| && |w| == |y.docs|;
    if |x.docs| == |y.docs| {
      forall i | 0 <= i < |x.docs| ensures Same(x.docs[i], y.docs[i]) <==> v[i] == w[i] {
        SameIffDenote(x.docs[i], y.docs[i]);
      }
      assert v == w <==> forall i :: 0 <= i < |v| ==> v[i] == w[i];
    }
  }

  /** The member of an object that has this name, if any. */
  lemma MemberOf(entries: seq<Member>, name: string) returns (i: int)
    ensures name in Denote(DObj(entries)).members <==> NamesEntry(entries, name)
    ensures NamesEntry(entries, name) ==>
      LastOf(entries, i) && entries[i].name == name && Denote(DObj(entries)).members[name] == Denote(entries[i].doc)
  {
    i := LastEntryWins(DObj(entries), entries, name);
  }

  lemma MemberAt(entries: seq<Member>, i: int)
    requires LastOf(entries, i)
    ensures NamesEntry(entries, entries[i].name)
    ensures entries[i].name in Denote(DObj(entries)).members
    ensures Denote(DObj(entries)).members[entries[i].name] == Denote(entries[i].doc)
  {
    var j := MemberOf(entries, entries[i].name);
    assert NamesEntry(entries, entries[i].name);
    assert j == i;
  }

  lemma SameNames(xs: seq<Member>, ys: seq<Member>)
    ensures (forall i :: 0 <= i < |xs| ==> NamesEntry(ys, xs[i].name)) <==>
            Denote(DObj(xs)).members.Keys <= Denote(DObj(ys)).members.Keys
  {
    forall n ensures (n in Denote(DObj(xs)).members <==> NamesEntry(xs, n)) && (n in Denote(DObj(ys)).members <==> NamesEntry(ys, n)) {
      var _ := MemberOf(xs, n);
      var _ := MemberOf(ys, n);
    }
    forall i | 0 <= i < |xs| ensures NamesEntry(xs, xs[i].name) {
    }
  }

  lemma {:induction false} SameObjects(x: Doc, y: Doc)
    requires x.DObj? && y.DObj?
    ensures Same(x, y) <==> Denote(x) == Denote(y)
    decreases x, 0
  {
    var xs, ys := x.entries, y.entries;
    var v, w := Denote(x).members, Denote(y).members;
    SameNames(xs, ys);
    SameNames(ys, xs);
    forall i, j | LastOf(xs, i) && LastOf(ys, j) && xs[i].name == ys[j].name
      ensures xs[i].name in v && xs[i].name in w
      ensures Same(xs[i].doc, ys[j].doc) <==> v[xs[i].name] == w[xs[i].name]
    {
      MemberAt(xs, i);
      MemberAt(ys, j);
      SameIffDenote(xs[i].doc, ys[j].doc);
    }
    if Same(x, y) {
      forall n | n in v ensures n in w && v[n] == w[n] {
        var i := MemberOf(xs, n);
        var j := MemberOf(ys, n);
        assert LastOf(xs, i) && LastOf(ys, j) && xs[i].name == ys[j].name;
      }
      assert v == w;
    }
    if v == w {
      forall i, j | LastOf(xs, i) && LastOf(ys, j) && xs[i].name == ys[j].name ensures Same(xs[i].doc, ys[j].doc) {
        MemberAt(xs, i);
      }
    }
  }

  /** On texts that parse, jsonEqual decides whether they are decoded to the same value. */
  lemma JsonEqualIffDenote(parse: string -> Option<Doc>, a: string, b: string)
    requires a != "" && b != "" && parse(a).Some? && parse(b).Some?
    ensures JsonEqual(parse, a, b) <==> Denote(parse(a).value) == Denote(parse(b).value)
  {
    var v, w := Denote(parse(a).value), Denote(parse(b).value);
    if Print(v) == Print(w) {
      assert Print(v) + "" == Print(w) + "";
      PrintUnique(v, w, "", "");
    }
  }

  /** Main result: on texts that parse, jsonEqual decides whether they say the same. */
  lemma JsonEqualIffSame(parse: string -> Option<Doc>, a: string, b: string)
    requires a != "" && b != "" && parse(a).Some? && parse(b).Some?
    ensures JsonEqual(parse, a, b) <==> Same(parse(a).value, parse(b).value)
  {
    JsonEqualIffDenote(parse, a, b);
    SameIffDenote(parse(a).value, parse(b).value);
  }

  /** The empty text equals only itself. */
  lemma JsonEqualEmpty(parse: string -> Option<Doc>, a: string)
    ensures (JsonEqual(parse, a, "") <==> a == "") && (JsonEqual(parse, "", a) <==> a == "")
  {
  }

  /** On a text that does not parse it decides identity. */
  lemma JsonEqualUnparsable(parse: string -> Option<Doc>, a: string, b: string)
    requires parse(a).None? || parse(b).None?
    ensures JsonEqual(parse, a, b) <==> a == b
  {
    // The empty text denotes nothing and equals only itself.
  }

  lemma JsonEqualEquivalence(parse: string -> Option<Doc>, a: string, b: string, c: string)
    ensures JsonEqual(parse, a, a)
    ensures JsonEqual(parse, a, b) ==> JsonEqual(parse, b, a)
    ensures JsonEqual(parse, a, b) && JsonEqual(parse, b, c) ==> JsonEqual(parse, a, c)
  {
  }

  ghost predicate NamesEntry(entries: seq<Member>, name: string) {
    exists i :: 0 <= i < |entries| && entries[i].name == name
  }

  /** The last entry of a name is the one that counts. */
  lemma {:induction false} LastEntryWins(context: Doc, entries: seq<Member>, name: string) returns (i: int)
    requires forall m :: m in entries ==> m.doc < context
    ensures name in DenoteMembers(context, entries) <==> NamesEntry(entries, name)
    ensures name in DenoteMembers(context, entries) ==>
      && 0 <= i < |entries| && entries[i].name == name
      && (forall j :: i < j < |entries| ==> entries[j].name != name)
      && DenoteMembers(context, entries)[name] == Denote(entries[i].doc)
    decreases |entries|
  {
    i := 0;
    if entries != [] {
      var init, last := entries[..|entries| - 1], entries[|entries| - 1];
      assert forall m :: m in init ==> m in entries;
      i := LastEntryWins(context, init, name);
      NamesEntrySplit(entries, name);
      if last.name == name {
        i := |entries| - 1;
      } else if NamesEntry(init, name) {
        forall j | i < j < |entries| ensures entries[j].name != name {
          assert j < |init| ==> init[j] == entries[j];
        }
      }
    }
  }

  lemma NamesEntrySplit(entries: seq<Member>, name: string)
    requires entries != []
    ensures NamesEntry(entries, name) <==> NamesEntry(entries[..|entries| - 1], name) || entries[|entries| - 1].name == name
  {
    var init := entries[..|entries| - 1];
    if NamesEntry(init, name) {
      var j :| 0 <= j < |init| && init[j].name == name;
      assert entries[j].name == name;
    }
    if NamesEntry(entries, name) {
      var j :| 0 <= j < |entries| && entries[j].name == name;
      assert j < |init| ==> init[j].name == name;
    }
  }

  ghost predicate DistinctNames(entries: seq<Member>) {
    forall i, j :: 0 <= i < j < |entries| ==> entries[i].name != entries[j].name
  }

  /** Member order is immaterial: two objects with the same members, each named once, denote
      the same value. */
  lemma MemberOrderImmaterial(xs: seq<Member>, ys: seq<Member>)
    requires DistinctNames(xs) && DistinctNames(ys) && Elements(xs) == Elements(ys)
    ensures Denote(DObj(xs)) == Denote(DObj(ys))
  {
    var x, y := DObj(xs), DObj(ys);
    forall n
      ensures n in DenoteMembers(x, xs) <==> n in DenoteMembers(y, ys)
      ensures n in DenoteMembers(x, xs) ==> DenoteMembers(x, xs)[n] == DenoteMembers(y, ys)[n]
    {
      var i := LastEntryWins(x, xs, n);
      var j := LastEntryWins(y, ys, n);
      if NamesEntry(xs, n) {
        assert xs[i] in Elements(xs);
        var k :| 0 <= k < |ys| && ys[k] == xs[i];
        assert NamesEntry(ys, n);
      }
      if NamesEntry(ys, n) {
        assert ys[j] in Elements(ys);
        var k :| 0 <= k < |xs| && xs[k] == ys[j];
        assert NamesEntry(xs, n);
      }
    }
    assert DenoteMembers(x, xs) == DenoteMembers(y, ys);
  }
}
