/** How the command server finds the end of a request on a connection: it
    counts braces, rune by rune, until the count returns to zero. */
module RequestFraming {
  import opened Options
  import opened Runes
  import opened TextLines

  /** Opening less closing braces. */
  function Depth(s: string): int {
    if s == [] then 0
    else
      var n := |s| - 1;
      Depth(s[..n]) + if s[n] == '{' then 1 else if s[n] == '}' then -1 else 0
  }

  /** The first n runes are the shortest non-empty prefix with as many closing
      as opening braces. */
  predicate StopsAt(s: string, n: nat) {
    && 0 < n <= |s| && Depth(s[..n]) == 0
    && forall k | 0 < k < n :: Depth(s[..k]) != 0
  }

  /** The read loop. input is what the connection delivers before it ends or
      times out; None is the error answer. runes counts what was read. */
  method ReadRequest(input: seq<Byte>) returns (request: Option<seq<Byte>>, runes: nat)
    ensures runes <= |Decode(input)|
    ensures request.Some? ==> StopsAt(Decode(input), runes) && request.value == LowBytes(Decode(input)[..runes])
    ensures request.None? ==> runes == |Decode(input)| && forall n :: !StopsAt(Decode(input), n)
  {
    var b: seq<Byte> := [];
    var depth, at := 0, 0;
    ghost var seen := "";
    assert input[0..] == input && seen + Decode(input) == Decode(input);
    while at < |input|
      invariant at <= |input| && Decode(input) == seen + Decode(input[at..])
      invariant b == LowBytes(seen) && depth == Depth(seen) && NeverZero(seen)
    {
      var left := input[at..];
      var rune := Rune(left);
      b := b + [rune as int % 256];
      if rune == '{' {
        depth := depth + 1;
      } else if rune == '}' {
        depth := depth - 1;
      }
      SeenGrows(seen, rune);
      DecodeOn(input, at, seen);
      at, seen := at + Width(left), seen + [rune];
      if depth == 0 {
        StopsEarly(seen, Decode(input[at..]));
        return Some(b), |b|;
      }
    }
    assert input[at..] == [] && seen + [] == seen;
    return None, |b|;
  }

  /** No non-empty prefix has as many closing as opening braces. */
  predicate NeverZero(s: string) {
    forall k | 0 < k <= |s| :: Depth(s[..k]) != 0
  }

  /** One more rune off the input. */
  lemma {:induction false} DecodeOn(input: seq<Byte>, at: nat, seen: string)
    requires at < |input| && Decode(input) == seen + Decode(input[at..])
    ensures var left := input[at..];
      Decode(input) == seen + [Rune(left)] + Decode(input[at + Width(left)..])
  {
    var left := input[at..];
    assert left[Width(left)..] == input[at + Width(left)..];
    Associates(seen, [Rune(left)], Decode(left[Width(left)..]));
  }

  lemma {:induction false} SeenGrows(seen: string, rune: char)
    requires NeverZero(seen)
    ensures Depth(seen + [rune]) == Depth(seen) + if rune == '{' then 1 else if rune == '}' then -1 else 0
    ensures LowBytes(seen + [rune]) == LowBytes(seen) + [rune as int % 256]
    ensures forall k | 0 < k <= |seen| :: Depth((seen + [rune])[..k]) != 0
    ensures Depth(seen + [rune]) != 0 ==> NeverZero(seen + [rune])
  {
    var s := seen + [rune];
    assert s[..|seen|] == seen && s[..|s|] == s;
    forall k | 0 < k <= |seen| ensures Depth(s[..k]) != 0 {
      assert s[..k] == seen[..k];
    }
  }

  lemma {:induction false} StopsEarly(seen: string, rest: string)
    requires seen != [] && Depth(seen) == 0 && forall k | 0 < k < |seen| :: Depth(seen[..k]) != 0
    ensures StopsAt(seen + rest, |seen|) && (seen + rest)[..|seen|] == seen
  {
    assert forall k | 0 <= k <= |seen| :: (seen + rest)[..k] == seen[..k];
    assert seen[..|seen|] == seen;
  }

  // ---- JSON texts (section 2 to 7 of RFC 8259) ----

  predicate IsWhitespace(s: string) {
    forall i | 0 <= i < |s| :: s[i] == ' ' || s[i] == '\t' || s[i] == '\n' || s[i] == '\r'
  }

  /** Literal names and numbers are made of these characters. */
  predicate IsScalar(s: string) {
    forall i | 0 <= i < |s| ::
      'a' <= s[i] <= 'z' || '0' <= s[i] <= '9' || s[i] == 'E' || s[i] == '+' || s[i] == '-' || s[i] == '.'
  }

  predicate BraceFree(s: string) {
    '{' !in s && '}' !in s
  }

  datatype Json =
    | Scalar(text: string)
    | Str(body: string) // what stands between the quotes, escapes included
    | Array(elements: Elements)
    | Object(members: Members)

  /** A value with the whitespace around it. */
  datatype Item = Item(before: string, value: Json, after: string)

  datatype Elements = NoElements(space: string) | LastElement(item: Item) | MoreElements(item: Item, rest: Elements)

  datatype Member = Member(before: string, name: string, gap: string, item: Item)

  datatype Members = NoMembers(space: string) | LastMember(member: Member) | MoreMembers(member: Member, rest: Members)

  function Text(j: Json): string {
    match j
    case Scalar(t) => t
    case Str(body) => "\"" + body + "\""
    case Array(es) => "[" + ElementsText(es) + "]"
    case Object(ms) => "{" + MembersText(ms) + "}"
  }

  function ItemText(i: Item): string {
    i.before + Text(i.value) + i.after
  }

  function ElementsText(es: Elements): string {
    match es
    case NoElements(space) => space
    case LastElement(i) => ItemText(i)
    case MoreElements(i, rest) => ItemText(i) + "," + ElementsText(rest)
  }

  function MemberText(m: Member): string {
    m.before + ("\"" + m.name + "\"") + m.gap + ":" + ItemText(m.item)
  }

  function MembersText(ms: Members): string {
    match ms
    case NoMembers(space) => space
    case LastMember(m) => MemberText(m)
    case MoreMembers(m, rest) => MemberText(m) + "," + MembersText(rest)
  }

  /** Whitespace and scalars are as the grammar has them, and each string and
      name is one that ok admits. */
  predicate Valid(j: Json, ok: string -> bool) {
    match j
    case Scalar(t) => IsScalar(t)
    case Str(body) => ok(body)
    case Array(es) => ValidElements(es, ok)
    case Object(ms) => ValidMembers(ms, ok)
  }

  predicate ValidItem(i: Item, ok: string -> bool) {
    IsWhitespace(i.before) && Valid(i.value, ok) && IsWhitespace(i.after)
  }

  predicate ValidElements(es: Elements, ok: string -> bool) {
    match es
    case NoElements(space) => IsWhitespace(space)
    case LastElement(i) => ValidItem(i, ok)
    case MoreElements(i, rest) => ValidItem(i, ok) && ValidElements(rest, ok)
  }

  predicate ValidMember(m: Member, ok: string -> bool) {
    IsWhitespace(m.before) && ok(m.name) && IsWhitespace(m.gap) && ValidItem(m.item, ok)
  }

  predicate ValidMembers(ms: Members, ok: string -> bool) {
    match ms
    case NoMembers(space) => IsWhitespace(space)
    case LastMember(m) => ValidMember(m, ok)
    case MoreMembers(m, rest) => ValidMember(m, ok) && ValidMembers(rest, ok)
  }

  /** Any string, braces or not. */
  predicate AnyString(s: string) {
    true
  }

  // ---- what the braces in strings add up to ----

  /** Opening less closing braces in all strings and names of a value. */
  function Skew(j: Json): int {
    match j
    case Scalar(_) => 0
    case Str(body) => Depth(body)
    case Array(es) => SkewElements(es)
    case Object(ms) => SkewMembers(ms)
  }

  function SkewItem(i: Item): int {
    Skew(i.value)
  }

  function SkewElements(es: Elements): int {
    match es
    case NoElements(_) => 0
    case LastElement(i) => SkewItem(i)
    case MoreElements(i, rest) => SkewItem(i) + SkewElements(rest)
  }

  function SkewMember(m: Member): int {
    Depth(m.name) + SkewItem(m.item)
  }

  function SkewMembers(ms: Members): int {
    match ms
    case NoMembers(_) => 0
    case LastMember(m) => SkewMember(m)
    case MoreMembers(m, rest) => SkewMember(m) + SkewMembers(rest)
  }

  /** Counting on from d, every prefix of this string leaves the count positive. */
  predicate StaysPositive(s: string, d: int) {
    forall k | 0 <= k <= |s| :: d + Depth(s[..k]) > 0
  }

  /** Read where the count is d, no string or name takes the count down to zero
      anywhere inside it, nor do the strings of an inner object let its closing
      brace do so. */
  predicate Above(j: Json, d: int) {
    match j
    case Scalar(_) => true
    case Str(body) => StaysPositive(body, d)
    case Array(es) => AboveElements(es, d)
    case Object(ms) => AboveMembers(ms, d + 1) && d + SkewMembers(ms) > 0
  }

  predicate AboveItem(i: Item, d: int) {
    Above(i.value, d)
  }

  predicate AboveElements(es: Elements, d: int) {
    match es
    case NoElements(_) => true
    case LastElement(i) => AboveItem(i, d)
    case MoreElements(i, rest) => AboveItem(i, d) && AboveElements(rest, d + SkewItem(i))
  }

  predicate AboveMember(m: Member, d: int) {
    StaysPositive(m.name, d) && AboveItem(m.item, d + Depth(m.name))
  }

  predicate AboveMembers(ms: Members, d: int) {
    match ms
    case NoMembers(_) => true
    case LastMember(m) => AboveMember(m, d)
    case MoreMembers(m, rest) => AboveMember(m, d) && AboveMembers(rest, d + SkewMember(m))
  }

  /** The braces in the strings of an object cancel out, and never take the
      count to zero before its end. */
  predicate Framed(ms: Members) {
    AboveMembers(ms, 1) && SkewMembers(ms) == 0
  }

  // ---- counting braces ----

  lemma {:induction false} DepthAppend(a: string, b: string)
    ensures Depth(a + b) == Depth(a) + Depth(b)
  {
    if b == [] {
      assert a + b == a;
    } else {
      assert (a + b)[..|a + b| - 1] == a + b[..|b| - 1];
      DepthAppend(a, b[..|b| - 1]);
    }
  }

  lemma {:induction false} BraceFreeDepth(s: string)
    requires BraceFree(s)
    ensures Depth(s) == 0
  {
    if s != [] {
      BraceFreeDepth(s[..|s| - 1]);
    }
  }

  /** Balanced, and no prefix closes more than it opened. */
  ghost predicate Neutral(s: string) {
    Depth(s) == 0 && forall k | 0 <= k <= |s| :: Depth(s[..k]) >= 0
  }

  lemma BraceFreeNeutral(s: string)
    requires BraceFree(s)
    ensures Neutral(s)
  {
    forall k | 0 <= k <= |s| ensures Depth(s[..k]) >= 0 {
      BraceFreeDepth(s[..k]);
    }
    BraceFreeDepth(s);
  }

  lemma NeutralAppend(a: string, b: string)
    requires Neutral(a) && Neutral(b)
    ensures Neutral(a + b)
  {
    DepthAppend(a, b);
    forall k | 0 <= k <= |a + b| ensures Depth((a + b)[..k]) >= 0 {
      if k <= |a| {
        assert (a + b)[..k] == a[..k];
      } else {
        assert (a + b)[..k] == a + b[..k - |a|];
        DepthAppend(a, b[..k - |a|]);
      }
    }
  }

  lemma NeutralAppend3(a: string, b: string, c: string)
    requires Neutral(a) && Neutral(b) && Neutral(c)
    ensures Neutral(a + b + c)
  {
    NeutralAppend(a, b);
    NeutralAppend(a + b, c);
  }

  lemma DepthOfOpen(s: string)
    ensures Depth("{" + s) == 1 + Depth(s)
  {
    DepthAppend("{", s);
    assert "{"[..0] == "";
  }

  /** Inside braces the count stays positive until the closing one. */
  lemma Wrapped(s: string)
    requires Neutral(s)
    ensures var t := "{" + s + "}";
      && Neutral(t) && forall k | 0 < k < |t| :: Depth(t[..k]) > 0
  {
    var t := "{" + s + "}";
    forall k | 0 < k < |t| ensures Depth(t[..k]) > 0 {
      assert t[..k] == "{" + s[..k - 1];
      DepthOfOpen(s[..k - 1]);
    }
    assert t[..|t| - 1] == "{" + s;
    DepthOfOpen(s);
    assert t[..|t|] == t && t[..0] == "";
  }

  // ---- JSON texts are neutral ----

  lemma {:induction false} TextNeutral(j: Json)
    requires Valid(j, BraceFree)
    ensures Neutral(Text(j))
    decreases j
  {
    match j
    case Scalar(t) => BraceFreeNeutral(t);
    case Str(body) => BraceFreeNeutral(Text(j));
    case Array(es) =>
      ElementsNeutral(es);
      BraceFreeNeutral("[");
      BraceFreeNeutral("]");
      NeutralAppend3("[", ElementsText(es), "]");
    case Object(ms) =>
      MembersNeutral(ms);
      Wrapped(MembersText(ms));
  }

  lemma {:induction false} ItemNeutral(i: Item)
    requires ValidItem(i, BraceFree)
    ensures Neutral(ItemText(i))
    decreases i
  {
    TextNeutral(i.value);
    BraceFreeNeutral(i.before);
    BraceFreeNeutral(i.after);
    NeutralAppend3(i.before, Text(i.value), i.after);
  }

  lemma {:induction false} ElementsNeutral(es: Elements)
    requires ValidElements(es, BraceFree)
    ensures Neutral(ElementsText(es))
    decreases es
  {
    match es
    case NoElements(space) => BraceFreeNeutral(space);
    case LastElement(i) => ItemNeutral(i);
    case MoreElements(i, rest) =>
      ItemNeutral(i);
      ElementsNeutral(rest);
      BraceFreeNeutral(",");
      NeutralAppend3(ItemText(i), ",", ElementsText(rest));
  }

  lemma {:induction false} MemberNeutral(m: Member)
    requires ValidMember(m, BraceFree)
    ensures Neutral(MemberText(m))
    decreases m
  {
    var head := m.before + ("\"" + m.name + "\"") + m.gap + ":";
    BraceFreeNeutral(head);
    ItemNeutral(m.item);
    NeutralAppend(head, ItemText(m.item));
  }

  lemma {:induction false} MembersNeutral(ms: Members)
    requires ValidMembers(ms, BraceFree)
    ensures Neutral(MembersText(ms))
    decreases ms
  {
    match ms
    case NoMembers(space) => BraceFreeNeutral(space);
    case LastMember(m) => MemberNeutral(m);
    case MoreMembers(m, rest) =>
      MemberNeutral(m);
      MembersNeutral(rest);
      BraceFreeNeutral(",");
      NeutralAppend3(MemberText(m), ",", MembersText(rest));
  }

  // ---- the exact condition ----

  lemma PrefixDepth(a: string, b: string, k: nat)
    requires k <= |a| + |b|
    ensures Depth((a + b)[..k]) == if k <= |a| then Depth(a[..k]) else Depth(a) + Depth(b[..k - |a|])
  {
    if k <= |a| {
      assert (a + b)[..k] == a[..k];
    } else {
      assert (a + b)[..k] == a + b[..k - |a|];
      DepthAppend(a, b[..k - |a|]);
    }
  }

  lemma {:induction false} StaysPositiveAppend(a: string, b: string, d: int)
    ensures StaysPositive(a + b, d) <==> StaysPositive(a, d) && StaysPositive(b, d + Depth(a))
    ensures Depth(a + b) == Depth(a) + Depth(b)
  {
    DepthAppend(a, b);
    assert a[..|a|] == a && b[..0] == [];
    if StaysPositive(a, d) && StaysPositive(b, d + Depth(a)) {
      forall k | 0 <= k <= |a + b| ensures d + Depth((a + b)[..k]) > 0 {
        PrefixDepth(a, b, k);
      }
    }
    if StaysPositive(a + b, d) {
      forall k | 0 <= k <= |a| ensures d + Depth(a[..k]) > 0 {
        PrefixDepth(a, b, k);
      }
      forall k | 0 <= k <= |b| ensures d + Depth(a) + Depth(b[..k]) > 0 {
        PrefixDepth(a, b, |a| + k);
        assert d + Depth((a + b)[..|a| + k]) > 0;
      }
    }
  }

  /** A text without braces is as positive as what stands before it. */
  lemma StaysPositivePlain(s: string, d: int)
    requires BraceFree(s)
    ensures Depth(s) == 0 && (StaysPositive(s, d) <==> d > 0)
  {
    BraceFreeDepth(s);
    forall k | 0 <= k <= |s| ensures Depth(s[..k]) == 0 {
      BraceFreeDepth(s[..k]);
    }
    if StaysPositive(s, d) {
      assert d + Depth(s[..0]) > 0;
    }
  }

  lemma StaysPositiveEnds(s: string, d: int)
    requires StaysPositive(s, d)
    ensures d > 0 && d + Depth(s) > 0
  {
    assert d + Depth(s[..0]) > 0;
    assert s[..|s|] == s;
  }

  /** Brace-free text on both sides changes nothing. */
  lemma StaysPositiveAround(a: string, s: string, b: string, d: int)
    requires BraceFree(a) && BraceFree(b)
    ensures Depth(a + s + b) == Depth(s) && (StaysPositive(a + s + b, d) <==> StaysPositive(s, d))
  {
    StaysPositivePlain(a, d);
    StaysPositiveAppend(a, s, d);
    StaysPositivePlain(b, d + Depth(s));
    StaysPositiveAppend(a + s, b, d);
    if StaysPositive(s, d) {
      StaysPositiveEnds(s, d);
    }
  }

  lemma StaysPositiveBraced(s: string, d: int)
    ensures Depth("{" + s + "}") == Depth(s)
    ensures StaysPositive("{" + s + "}", d) <==> d > 0 && StaysPositive(s, d + 1) && d + Depth(s) > 0
  {
    BraceDepths(d);
    BraceDepths(d + 1 + Depth(s));
    StaysPositiveAppend("{", s, d);
    StaysPositiveAppend("{" + s, "}", d);
  }

  lemma BraceDepths(d: int)
    ensures Depth("{") == 1 && Depth("}") == -1
    ensures (StaysPositive("{", d) <==> d > 0) && (StaysPositive("}", d) <==> d > 1)
  {
    assert "{"[..0] == "" && "{"[..1] == "{" && "}"[..0] == "" && "}"[..1] == "}";
    assert Depth("{") == 1 && Depth("}") == -1;
    if StaysPositive("{", d) { assert d + Depth("{"[..0]) > 0; }
    if StaysPositive("}", d) { assert d + Depth("}"[..1]) > 0; }
  }

  /** Two texts with a brace-free separator between them. */
  lemma StaysPositiveJoined(a: string, sep: string, b: string, d: int)
    requires BraceFree(sep)
    ensures Depth(a + sep + b) == Depth(a) + Depth(b)
    ensures StaysPositive(a + sep + b, d) <==> StaysPositive(a, d) && StaysPositive(b, d + Depth(a))
  {
    StaysPositiveAppend(a, sep, d);
    StaysPositiveAppend(a + sep, b, d);
    StaysPositivePlain(sep, d + Depth(a));
    if StaysPositive(a, d) {
      StaysPositiveEnds(a, d);
    }
  }

  /** The count over the text of a value is decided by its strings alone. */
  lemma {:induction false} TextCounts(j: Json, d: int)
    requires Valid(j, AnyString)
    ensures Depth(Text(j)) == Skew(j) && (StaysPositive(Text(j), d) <==> d > 0 && Above(j, d))
    decreases j
  {
    match j
    case Scalar(t) => StaysPositivePlain(t, d);
    case Str(body) =>
      StaysPositiveAround("\"", body, "\"", d);
      if StaysPositive(body, d) { StaysPositiveEnds(body, d); }
    case Array(es) =>
      ElementsCount(es, d);
      StaysPositiveAround("[", ElementsText(es), "]", d);
    case Object(ms) =>
      MembersCount(ms, d + 1);
      StaysPositiveBraced(MembersText(ms), d);
  }

  lemma {:induction false} ItemCounts(i: Item, d: int)
    requires ValidItem(i, AnyString)
    ensures Depth(ItemText(i)) == SkewItem(i) && (StaysPositive(ItemText(i), d) <==> d > 0 && AboveItem(i, d))
    decreases i
  {
    TextCounts(i.value, d);
    StaysPositiveAround(i.before, Text(i.value), i.after, d);
  }

  lemma {:induction false} ElementsCount(es: Elements, d: int)
    requires ValidElements(es, AnyString)
    ensures Depth(ElementsText(es)) == SkewElements(es)
    ensures StaysPositive(ElementsText(es), d) <==> d > 0 && AboveElements(es, d)
    decreases es
  {
    match es
    case NoElements(space) => StaysPositivePlain(space, d);
    case LastElement(i) => ItemCounts(i, d);
    case MoreElements(i, rest) =>
      ItemCounts(i, d);
      ElementsCount(rest, d + SkewItem(i));
      StaysPositiveJoined(ItemText(i), ",", ElementsText(rest), d);
      if StaysPositive(ItemText(i), d) { StaysPositiveEnds(ItemText(i), d); }
  }

  lemma {:induction false} MemberCounts(m: Member, d: int)
    requires ValidMember(m, AnyString)
    ensures Depth(MemberText(m)) == SkewMember(m)
    ensures StaysPositive(MemberText(m), d) <==> d > 0 && AboveMember(m, d)
    decreases m
  {
    var head := m.before + ("\"" + m.name + "\"") + m.gap;
    NameCounts(m, d);
    ItemCounts(m.item, d + Depth(m.name));
    StaysPositiveJoined(head, ":", ItemText(m.item), d);
    if StaysPositive(m.name, d) { StaysPositiveEnds(m.name, d); }
  }

  lemma NameCounts(m: Member, d: int)
    requires IsWhitespace(m.before) && IsWhitespace(m.gap)
    ensures var head := m.before + ("\"" + m.name + "\"") + m.gap;
      Depth(head) == Depth(m.name) && (StaysPositive(head, d) <==> StaysPositive(m.name, d))
  {
    StaysPositiveAround("\"", m.name, "\"", d);
    StaysPositiveAround(m.before, "\"" + m.name + "\"", m.gap, d);
  }

  lemma {:induction false} MembersCount(ms: Members, d: int)
    requires ValidMembers(ms, AnyString)
    ensures Depth(MembersText(ms)) == SkewMembers(ms)
    ensures StaysPositive(MembersText(ms), d) <==> d > 0 && AboveMembers(ms, d)
    decreases ms
  {
    match ms
    case NoMembers(space) => StaysPositivePlain(space, d);
    case LastMember(m) => MemberCounts(m, d);
    case MoreMembers(m, rest) =>
      MemberCounts(m, d);
      MembersCount(rest, d + SkewMember(m));
      StaysPositiveJoined(MemberText(m), ",", MembersText(rest), d);
      if StaysPositive(MemberText(m), d) { StaysPositiveEnds(MemberText(m), d); }
  }

  /** A count that moves by single braces and avoids zero stays positive. */
  lemma {:induction false} NonzeroIsPositive(s: string, d: int, k: nat)
    requires d > 0 && k <= |s| && forall i | 0 <= i <= |s| :: d + Depth(s[..i]) != 0
    ensures d + Depth(s[..k]) > 0
  {
    if k > 0 {
      NonzeroIsPositive(s, d, k - 1);
      assert s[..k][..k - 1] == s[..k - 1];
    }
  }

  lemma StopsAtOwnEnd(m: string, rest: string)
    ensures var t := "{" + m + "}"; StopsAt(t + rest, |t|) <==> StaysPositive(m, 1) && Depth(m) == 0
  {
    var t := "{" + m + "}";
    StaysPositiveBraced(m, 1);
    assert (t + rest)[..|t|] == t;
    forall k | 0 < k < |t| ensures Depth((t + rest)[..k]) == 1 + Depth(m[..k - 1]) {
      assert (t + rest)[..k] == "{" + m[..k - 1];
      DepthOfOpen(m[..k - 1]);
    }
    if StopsAt(t + rest, |t|) {
      forall i | 0 <= i <= |m| ensures 1 + Depth(m[..i]) != 0 {
        assert Depth((t + rest)[..i + 1]) != 0;
      }
      forall k | 0 <= k <= |m| ensures 1 + Depth(m[..k]) > 0 {
        NonzeroIsPositive(m, 1, k);
      }
    }
    if StaysPositive(m, 1) {
      forall k | 0 < k < |t| ensures Depth((t + rest)[..k]) != 0 {
        assert 1 + Depth(m[..k - 1]) > 0;
      }
    }
  }

  // ---- theorems ----

  /** For every JSON object, whatever follows it, the read loop stops exactly at
      its end if and only if the braces in its strings cancel out and never take
      the count to zero on the way. */
  lemma FramingIsExact(j: Json, rest: string)
    requires j.Object? && Valid(j, AnyString)
    ensures StopsAt(Text(j) + rest, |Text(j)|) <==> Framed(j.members)
  {
    MembersCount(j.members, 1);
    StopsAtOwnEnd(MembersText(j.members), rest);
  }

  /** In particular it does for every object whose strings contain no brace. */
  lemma ObjectIsFramed(j: Json, rest: string)
    requires j.Object? && Valid(j, BraceFree)
    ensures StopsAt(Text(j) + rest, |Text(j)|)
  {
    MembersNeutral(j.members);
    var m := MembersText(j.members);
    assert StaysPositive(m, 1);
    StopsAtOwnEnd(m, rest);
  }

  /** An object sent in UTF-8 with any bytes after it: the handler is given the
      low bytes of exactly that object if and only if it is framed. */
  lemma SentObjectIsFramed(j: Json, rest: seq<Byte>)
    requires j.Object? && Valid(j, AnyString)
    ensures StopsAt(Decode(Encode(Text(j)) + rest), |Text(j)|) <==> Framed(j.members)
    ensures Text(j) <= Decode(Encode(Text(j)) + rest)
  {
    DecodeEncode(Text(j), rest);
    FramingIsExact(j, Decode(rest));
  }

  /** The loop can stop in one place only. */
  lemma StopsAtUnique(s: string, m: nat, n: nat)
    requires StopsAt(s, m) && StopsAt(s, n)
    ensures m == n
  {
  }

  /** A closing brace inside a string does mislead it: the request is cut
      within the first string value that starts with one. */
  lemma BraceInStringCuts(name: string, more: string)
    requires BraceFree(name)
    ensures var head := "{" + ("\"" + name + "\"" + ":" + "\"") + "}"; StopsAt(head + more, |head|)
  {
    var inner := "\"" + name + "\"" + ":" + "\"";
    var head := "{" + inner + "}";
    BraceFreeNeutral(inner);
    Wrapped(inner);
    assert (head + more)[..|head|] == head;
    forall k | 0 < k < |head| ensures Depth((head + more)[..k]) != 0 {
      assert (head + more)[..k] == head[..k];
    }
  }

  /** The texts are those of JSON: an object with an array in it. */
  lemma TextExample()
    ensures var one := Item("", Scalar("1"), ""); var a := Item(" ", Str("a"), "");
      Text(Object(LastMember(Member("", "k", "", Item("", Array(MoreElements(one, LastElement(a))), "")))))
      == "{\"k\":[1, \"a\"]}"
  {
    var one := Item("", Scalar("1"), "");
    var a := Item(" ", Str("a"), "");
    assert ItemText(one) == "1" && ItemText(a) == " \"a\"";
    var es := MoreElements(one, LastElement(a));
    assert ElementsText(LastElement(a)) == " \"a\"";
    assert ElementsText(es) == "1, \"a\"";
    var item := Item("", Array(es), "");
    assert Text(Array(es)) == "[1, \"a\"]";
    assert ItemText(item) == "[1, \"a\"]";
    var m := Member("", "k", "", item);
    assert MemberText(m) == "\"k\":[1, \"a\"]";
    assert MembersText(LastMember(m)) == "\"k\":[1, \"a\"]";
  }
}
