/**
 * `normalizeClass`, `parseStringStyle` and `normalizeStyle`
 * (normalizeProp.ts): the `class` and `style` values a vnode's props carry,
 * flattened to a class string and a style record.
 */
module NormalizeProp {
  import opened Wrappers
  import opened JsStrings
  import opened JsValue

  // ---------------------------------------------------------------- class

  /** The normalised classes of the first `n` elements of an array. */
  function Normalized(items: seq<Js>, n: nat): (r: seq<string>)
    requires n <= |items|
    decreases Arr(items), 0, n
    ensures |r| == n
  {
    if n == 0 then []
    else
      assert items[n - 1] in items;
      Normalized(items, n - 1) + [NormalizeClass(items[n - 1])]
  }

  /** The loop of the array branch: every non-empty class followed by a
      space. */
  function ClassAccumulate(ws: seq<string>): string {
    if ws == [] then []
    else
      var res := ClassAccumulate(ws[..|ws| - 1]);
      var normalized := ws[|ws| - 1];
      if normalized != [] then res + normalized + " " else res
  }

  /** The object branch: every key with a truthy value followed by a space. */
  function KeyAccumulate(entries: seq<(string, Js)>): string {
    if entries == [] then []
    else
      var res := KeyAccumulate(entries[..|entries| - 1]);
      var (name, value) := entries[|entries| - 1];
      if Truthy(value) then res + name + " " else res
  }

  /** `normalizeClass(value)`. */
  function NormalizeClass(v: Js): (r: string)
    decreases v, 1
    ensures Trimmed(r)
    ensures v.Str? ==> r == Trim(v.s)
    ensures !(v.Str? || v.Arr? || v.Obj?) ==> r == []
  {
    match v
    case Str(s) => Trim(s)
    case Arr(items) => Trim(ClassAccumulate(Normalized(items, |items|)))
    case Obj(entries) => Trim(KeyAccumulate(entries))
    case _ => Trim([])
  }

  /** The non-empty strings of `ws`, in order. */
  function NonEmpty(ws: seq<string>): (r: seq<string>)
    ensures forall i | 0 <= i < |r| :: r[i] != [] && r[i] in ws
  {
    if ws == [] then []
    else NonEmpty(ws[..|ws| - 1]) + (if ws[|ws| - 1] != [] then [ws[|ws| - 1]] else [])
  }

  /** The keys whose values are truthy, in enumeration order. */
  function TruthyKeys(entries: seq<(string, Js)>): seq<string> {
    if entries == [] then []
    else
      var (name, value) := entries[|entries| - 1];
      TruthyKeys(entries[..|entries| - 1]) + (if Truthy(value) then [name] else [])
  }

  lemma {:induction false} TrimStartAppend(x: string, c: char)
    ensures TrimStart(x + [c]) == if TrimStart(x) == [] then TrimStart([c]) else TrimStart(x) + [c]
  {
    if |x| > 0 && IsSpace(x[0]) {
      assert (x + [c])[1..] == x[1..] + [c];
      TrimStartAppend(x[1..], c);
    }
  }

  /** A trailing space makes no difference to `trim`. */
  lemma TrimAppendSpace(x: string)
    ensures Trim(x + " ") == Trim(x)
  {
    TrimStartAppend(x, ' ');
    var t := TrimStart(x);
    if t != [] {
      assert (t + " ")[..|t|] == t;
    }
  }

  /** Spaces between non-empty trimmed words: the join is trimmed too. */
  lemma {:induction false} JoinTrimmed(xs: seq<string>)
    requires forall i | 0 <= i < |xs| :: xs[i] != [] && Trimmed(xs[i])
    ensures Trimmed(Join(xs, " ")) && (xs != [] ==> Join(xs, " ") != [])
    ensures xs != [] ==> Join(xs, " ")[0] == xs[0][0]
  {
    if |xs| > 1 {
      JoinTrimmed(xs[..|xs| - 1]);
    }
  }

  /** Joining one more word. */
  lemma JoinSnoc(xs: seq<string>, y: string, sep: string)
    ensures Join(xs + [y], sep) == if xs == [] then y else Join(xs, sep) + sep + y
  {
    if xs != [] {
      assert (xs + [y])[..|xs|] == xs;
    }
  }

  /** Appending `w + " "` to the accumulated text of `xs` gives that of
      `xs + [w]`. */
  lemma AccumulateSnoc(xs: seq<string>, w: string)
    ensures (if xs == [] then [] else Join(xs, " ") + " ") + w + " " == Join(xs + [w], " ") + " "
  {
    JoinSnoc(xs, w, " ");
  }

  lemma {:induction false} ClassAccumulateJoin(ws: seq<string>)
    ensures ClassAccumulate(ws) == if NonEmpty(ws) == [] then [] else Join(NonEmpty(ws), " ") + " "
  {
    if ws != [] {
      var prefix := ws[..|ws| - 1];
      ClassAccumulateJoin(prefix);
      var w := ws[|ws| - 1];
      if w != [] {
        AccumulateSnoc(NonEmpty(prefix), w);
      } else {
        assert NonEmpty(prefix) + [] == NonEmpty(prefix);
      }
    }
  }

  predicate AllTrimmed(ws: seq<string>) {
    forall i | 0 <= i < |ws| :: Trimmed(ws[i])
  }

  /** Every normalised element is trimmed. */
  lemma {:induction false} NormalizedTrimmed(items: seq<Js>, n: nat)
    requires n <= |items|
    ensures AllTrimmed(Normalized(items, n))
  {
    if n > 0 {
      var prev := Normalized(items, n - 1);
      NormalizedTrimmed(items, n - 1);
      var last := NormalizeClass(items[n - 1]);
      assert Normalized(items, n) == prev + [last];
      AppendTrimmed(prev, last);
    }
  }

  lemma AppendTrimmed(ws: seq<string>, w: string)
    requires AllTrimmed(ws) && Trimmed(w)
    ensures AllTrimmed(ws + [w])
  {
    assert forall i | 0 <= i < |ws| :: (ws + [w])[i] == ws[i];
  }

  /** The text `ClassAccumulate` builds from non-empty trimmed words trims to
      their join. */
  lemma TrimSpaced(xs: seq<string>)
    requires forall i | 0 <= i < |xs| :: xs[i] != []
    requires AllTrimmed(xs)
    ensures Trim(if xs == [] then [] else Join(xs, " ") + " ") == Join(xs, " ")
  {
    if xs != [] {
      JoinTrimmed(xs);
      TrimAppendSpace(Join(xs, " "));
      TrimTrimmed(Join(xs, " "));
    }
  }

  /** An array class is the non-empty normalised elements joined by single
      spaces, with no space at either end. */
  lemma NormalizeClassArray(items: seq<Js>)
    ensures NormalizeClass(Arr(items)) == Join(NonEmpty(Normalized(items, |items|)), " ")
  {
    var ws := Normalized(items, |items|);
    ClassAccumulateJoin(ws);
    NormalizedTrimmed(items, |items|);
    TrimSpaced(NonEmpty(ws));
  }

  lemma {:induction false} KeyAccumulateJoin(entries: seq<(string, Js)>)
    ensures KeyAccumulate(entries) == if TruthyKeys(entries) == [] then [] else Join(TruthyKeys(entries), " ") + " "
  {
    if entries != [] {
      var prefix := entries[..|entries| - 1];
      KeyAccumulateJoin(prefix);
      var xs := TruthyKeys(prefix);
      var (name, value) := entries[|entries| - 1];
      assert TruthyKeys(entries) == xs + (if Truthy(value) then [name] else []);
      assert KeyAccumulate(entries) == if Truthy(value) then KeyAccumulate(prefix) + name + " " else KeyAccumulate(prefix);
      if Truthy(value) {
        AccumulateSnoc(xs, name);
      } else {
        assert xs + [] == xs;
      }
    }
  }

  /** An object class lists the keys with truthy values in enumeration
      order, separated by spaces (and trimmed as a whole). */
  lemma NormalizeClassObject(entries: seq<(string, Js)>)
    ensures NormalizeClass(Obj(entries)) == Trim(Join(TruthyKeys(entries), " "))
  {
    var xs := TruthyKeys(entries);
    KeyAccumulateJoin(entries);
    assert NormalizeClass(Obj(entries)) == Trim(if xs == [] then [] else Join(xs, " ") + " ");
    if xs != [] {
      TrimAppendSpace(Join(xs, " "));
    }
  }

  // ---------------------------------------------------------------- style text

  /** The look-ahead `(?![^(]*\))` fails at `j`: the first parenthesis at or
      after `j` is a closing one. */
  predicate CloseAhead(s: string, j: nat)
    decreases |s| - j
  {
    j < |s| && (s[j] == ')' || (s[j] != '(' && CloseAhead(s, j + 1)))
  }

  /** `listDelimiterRE` matches at `i`: a `;` that is not inside
      parentheses. */
  predicate DelimiterAt(s: string, i: nat) {
    i < |s| && s[i] == ';' && !CloseAhead(s, i + 1)
  }

  /** `s[start..].split(listDelimiterRE)`, with the scan at `j`. */
  function SplitFrom(s: string, start: nat, j: nat): (r: seq<string>)
    requires start <= j <= |s|
    decreases |s| - j
    ensures |r| >= 1 && Join(r, ";") == s[start..]
    ensures (forall i | j <= i < |s| :: !DelimiterAt(s, i)) ==> r == [s[start..]]
  {
    if j == |s| then [s[start..]]
    else if DelimiterAt(s, j) then
      var rest := SplitFrom(s, j + 1, j + 1);
      JoinCons(s[start..j], rest);
      [s[start..j]] + rest
    else SplitFrom(s, start, j + 1)
  }

  /** The pieces of `SplitFrom` hold no delimiter of their own, once the
      scan started clean. */
  lemma {:induction false} SplitFromClean(s: string, start: nat, j: nat)
    requires start <= j <= |s|
    requires forall q | start <= q < j :: !DelimiterAt(s, q)
    decreases |s| - j
    ensures forall i, k | 0 <= i < |SplitFrom(s, start, j)| && 0 <= k < |SplitFrom(s, start, j)[i]| ::
      !DelimiterAt(SplitFrom(s, start, j)[i], k)
  {
    if j == |s| {
      PieceClean(s, start, j);
      assert s[start..] == s[start..j];
    } else if DelimiterAt(s, j) {
      var rest := SplitFrom(s, j + 1, j + 1);
      SplitFromClean(s, j + 1, j + 1);
      ConsClean(s, start, j, rest);
      assert SplitFrom(s, start, j) == [s[start..j]] + rest;
    } else {
      SplitFromClean(s, start, j + 1);
    }
  }

  /** Every joint of the pieces of `SplitFrom` sits on a delimiter of `s`. */
  lemma {:induction false} SplitFromJoints(s: string, start: nat, j: nat)
    requires start <= j <= |s|
    decreases |s| - j
    ensures forall i | 0 <= i < |SplitFrom(s, start, j)| - 1 :: DelimiterAt(s, start + JointAt(SplitFrom(s, start, j), i))
  {
    if j < |s| && DelimiterAt(s, j) {
      var rest := SplitFrom(s, j + 1, j + 1);
      SplitFromJoints(s, j + 1, j + 1);
      ConsJoints(s, start, j, rest);
      assert SplitFrom(s, start, j) == [s[start..j]] + rest;
    } else if j < |s| {
      assert SplitFrom(s, start, j) == SplitFrom(s, start, j + 1);
      SplitFromJoints(s, start, j + 1);
    }
  }

  /** Putting the piece before the delimiter at `j` in front of the pieces
      after it keeps every joint on a delimiter. */
  lemma ConsJoints(s: string, start: nat, j: nat, rest: seq<string>)
    requires start <= j < |s| && DelimiterAt(s, j) && |rest| >= 1
    requires forall i | 0 <= i < |rest| - 1 :: DelimiterAt(s, j + 1 + JointAt(rest, i))
    ensures var r := [s[start..j]] + rest;
      forall i | 0 <= i < |r| - 1 :: DelimiterAt(s, start + JointAt(r, i))
  {
    var r := [s[start..j]] + rest;
    forall i | 0 <= i < |r| - 1
      ensures DelimiterAt(s, start + JointAt(r, i))
    {
      if i == 0 {
        assert r[..1] == [s[start..j]];
      } else {
        assert r[..i + 1] == [s[start..j]] + rest[..i];
        JoinCons(s[start..j], rest[..i]);
        assert rest[..i] == rest[..(i - 1) + 1];
        assert JointAt(r, i) == j - start + 1 + JointAt(rest, i - 1);
      }
    }
  }

  /** A clean piece before the delimiter at `j` in front of clean pieces. */
  lemma ConsClean(s: string, start: nat, j: nat, rest: seq<string>)
    requires start <= j < |s| && DelimiterAt(s, j)
    requires forall i, k | 0 <= i < |rest| && 0 <= k < |rest[i]| :: !DelimiterAt(rest[i], k)
    ensures (forall q | start <= q < j :: !DelimiterAt(s, q)) ==>
      var r := [s[start..j]] + rest;
      forall i, k | 0 <= i < |r| && 0 <= k < |r[i]| :: !DelimiterAt(r[i], k)
  {
    PieceClean(s, start, j);
    var r := [s[start..j]] + rest;
    assert forall i | 1 <= i < |r| :: r[i] == rest[i - 1];
  }

  /** The position of the joint after item `i` in `Join(r, ";")`. */
  function JointAt(r: seq<string>, i: nat): nat
    requires i < |r|
  {
    |Join(r[..i + 1], ";")|
  }

  /** Inside a piece that ends at a delimiter (or at the end of the text), a
      closing parenthesis ahead of `p` is still ahead of it within the
      piece. */
  lemma {:induction false} CloseAheadSlice(s: string, a: nat, b: nat, p: nat)
    requires a <= p <= b <= |s| && CloseAhead(s, p)
    requires b == |s| || DelimiterAt(s, b)
    ensures CloseAhead(s[a..b], p - a)
    decreases b - p
  {
    if p == b {
      assert false;
    }
    assert s[a..b][p - a] == s[p];
    if s[p] != ')' {
      CloseAheadSlice(s, a, b, p + 1);
    }
  }

  /** A piece between delimiters holds no delimiter of its own. */
  lemma PieceClean(s: string, a: nat, b: nat)
    requires a <= b <= |s| && (b == |s| || DelimiterAt(s, b))
    ensures (forall q | a <= q < b :: !DelimiterAt(s, q)) ==>
      forall k | 0 <= k < b - a :: !DelimiterAt(s[a..b], k)
  {
    if forall q | a <= q < b :: !DelimiterAt(s, q) {
      forall k | 0 <= k < b - a && s[a..b][k] == ';'
        ensures CloseAhead(s[a..b], k + 1)
      {
        assert !DelimiterAt(s, a + k);
        CloseAheadSlice(s, a, b, a + k + 1);
      }
    }
  }

  lemma {:induction false} JoinCons(x: string, rest: seq<string>)
    requires |rest| >= 1
    ensures Join([x] + rest, ";") == x + ";" + Join(rest, ";")
  {
    var xs := [x] + rest;
    var last := rest[|rest| - 1];
    assert xs[|xs| - 1] == last;
    if |rest| == 1 {
      assert xs[..1] == [x];
    } else {
      var init := rest[..|rest| - 1];
      assert xs[..|xs| - 1] == [x] + init;
      JoinCons(x, init);
      calc {
        Join(xs, ";");
        Join([x] + init, ";") + ";" + last;
        (x + ";" + Join(init, ";")) + ";" + last;
        x + ";" + (Join(init, ";") + ";" + last);
      }
    }
  }

  /** The items of a style text: joining them back with `;` gives the text,
      every joint is a delimiter (a `;` outside parentheses) and no item
      holds one. */
  function SplitStyle(css: string): (r: seq<string>)
    ensures |r| >= 1 && Join(r, ";") == css
    ensures forall i | 0 <= i < |r| - 1 :: DelimiterAt(css, JointAt(r, i))
    ensures forall i, k | 0 <= i < |r| && 0 <= k < |r[i]| :: !DelimiterAt(r[i], k)
  {
    SplitFromClean(css, 0, 0);
    SplitFromJoints(css, 0, 0);
    var r := SplitFrom(css, 0, 0);
    assert forall i | 0 <= i < |r| - 1 :: DelimiterAt(css, 0 + JointAt(r, i));
    r
  }

  /** `propertyDelimiterRE` (`/:(.+)/`) matches first at the least `:` that
      is followed by a character other than a line terminator. */
  function FirstColon(item: string, j: nat): (r: Option<nat>)
    decreases |item| - j
    ensures r.Some? ==>
      j <= r.value && r.value + 1 < |item| && item[r.value] == ':' && !IsLineTerminator(item[r.value + 1])
    ensures forall c | j <= c && (r.None? || c < r.value) && c + 1 < |item| ::
      !(item[c] == ':' && !IsLineTerminator(item[c + 1]))
  {
    if j + 1 >= |item| then None
    else if item[j] == ':' && !IsLineTerminator(item[j + 1]) then Some(j)
    else FirstColon(item, j + 1)
  }

  /** A `:` at `c` followed by a character other than a line terminator. */
  predicate ColonAt(item: string, c: nat) {
    c + 1 < |item| && item[c] == ':' && !IsLineTerminator(item[c + 1])
  }

  /** The least `ColonAt` is the one `FirstColon` finds. */
  lemma FirstColonLeast(item: string)
    ensures forall c: nat | ColonAt(item, c) && (forall d: nat | d < c :: !ColonAt(item, d)) ::
      FirstColon(item, 0) == Some(c)
  {
    forall c: nat | ColonAt(item, c) && (forall d: nat | d < c :: !ColonAt(item, d))
      ensures FirstColon(item, 0) == Some(c)
    {
      var f := FirstColon(item, 0);
      assert f.Some?;
      assert ColonAt(item, f.value);
    }
  }

  /** Where `.+` stops: the first line terminator at or after `j`. */
  function LineEnd(item: string, j: nat): (e: nat)
    requires j <= |item|
    decreases |item| - j
    ensures j <= e <= |item| && (e == |item| || IsLineTerminator(item[e]))
    ensures forall i | j <= i < e :: !IsLineTerminator(item[i])
  {
    if j == |item| || IsLineTerminator(item[j]) then j else LineEnd(item, j + 1)
  }

  /** The declaration of one item: `tmp[0].trim()` and `tmp[1].trim()` when
      `split` found a second part. */
  function Declaration(item: string): (r: Option<(string, string)>)
    ensures r.Some? <==> exists c | 0 <= c && c + 1 < |item| :: item[c] == ':' && !IsLineTerminator(item[c + 1])
    // split at the least such `:`: the name before it, the value up to the end of its line
    ensures forall c: nat | ColonAt(item, c) && (forall d: nat | d < c :: !ColonAt(item, d)) ::
      r == Some((Trim(item[..c]), Trim(item[c + 1..LineEnd(item, c + 1)])))
  {
    FirstColonLeast(item);
    match FirstColon(item, 0)
    case None => None
    case Some(c) => Some((Trim(item[..c]), Trim(item[c + 1..LineEnd(item, c + 1)])))
  }

  /** The `forEach` of `parseStringStyle` over the first `n` items. */
  function ParseItems(items: seq<string>): seq<(string, Js)> {
    if items == [] then []
    else
      var ret := ParseItems(items[..|items| - 1]);
      var item := items[|items| - 1];
      if item != [] && Declaration(item).Some? then
        Assign(ret, Declaration(item).value.0, Str(Declaration(item).value.1))
      else ret
  }

  /** `parseStringStyle(cssText)`. */
  function ParseStringStyle(css: string): seq<(string, Js)> {
    ParseItems(SplitStyle(css))
  }

  /** The value the last item declaring `k` gives it. */
  function LastDeclaration(items: seq<string>, k: string): Option<string> {
    if items == [] then None
    else
      var d := Declaration(items[|items| - 1]);
      if d.Some? && d.value.0 == k then Some(d.value.1) else LastDeclaration(items[..|items| - 1], k)
  }

  lemma {:induction false} ParseItemsLookup(items: seq<string>, k: string)
    ensures Lookup(ParseItems(items), k) == match LastDeclaration(items, k) case None => None case Some(v) => Some(Str(v))
  {
    if items != [] {
      ParseItemsLookup(items[..|items| - 1], k);
      var item := items[|items| - 1];
      if Declaration(item).Some? {
        LookupAssign(ParseItems(items[..|items| - 1]), Declaration(item).value.0, Str(Declaration(item).value.1), k);
      }
    }
  }

  /** A property of a parsed style text is the trimmed value of the last
      item declaring it (trimmed key), and nothing else is declared. */
  lemma ParseStringStyleLookup(css: string, k: string)
    ensures Lookup(ParseStringStyle(css), k) ==
      match LastDeclaration(SplitStyle(css), k) case None => None case Some(v) => Some(Str(v))
  {
    ParseItemsLookup(SplitStyle(css), k);
  }

  // ---------------------------------------------------------------- style

  /** `for (const key in normalized) res[key] = normalized[key]` over the
      keys still to copy. */
  function MergeInto(res: seq<(string, Js)>, rest: seq<(string, Js)>, all: seq<(string, Js)>): seq<(string, Js)>
    decreases |rest|
  {
    if rest == [] then res
    else MergeInto(Assign(res, rest[0].0, Get(all, rest[0].0)), rest[1..], all)
  }

  lemma {:induction false} MergeIntoLookup(res: seq<(string, Js)>, rest: seq<(string, Js)>, all: seq<(string, Js)>, k: string)
    decreases |rest|
    ensures Lookup(MergeInto(res, rest, all), k) == if k in Keys(rest) then Some(Get(all, k)) else Lookup(res, k)
  {
    if rest != [] {
      LookupAssign(res, rest[0].0, Get(all, rest[0].0), k);
      MergeIntoLookup(Assign(res, rest[0].0, Get(all, rest[0].0)), rest[1..], all, k);
      assert Keys(rest) == [rest[0].0] + Keys(rest[1..]);
    }
  }

  /** The record an array item contributes: a string is parsed, anything
      else normalised, and only a (truthy) object result counts. */
  function ItemStyle(item: Js): seq<(string, Js)>
    decreases item, 2
  {
    if item.Str? then ParseStringStyle(item.s)
    else
      var normalized := NormalizeStyle(item);
      if normalized.Obj? then normalized.entries else []
  }

  /** The records the first `n` items of an array contribute. */
  function ItemStyles(items: seq<Js>, n: nat): (r: seq<seq<(string, Js)>>)
    requires n <= |items|
    decreases Arr(items), 0, n
    ensures |r| == n
  {
    if n == 0 then []
    else
      assert items[n - 1] in items;
      ItemStyles(items, n - 1) + [ItemStyle(items[n - 1])]
  }

  /** The loop of the array branch of `normalizeStyle`: each record is copied
      key by key into the result, in order. */
  function MergeRecords(rs: seq<seq<(string, Js)>>): seq<(string, Js)> {
    if rs == [] then []
    else
      var e := rs[|rs| - 1];
      MergeInto(MergeRecords(rs[..|rs| - 1]), e, e)
  }

  /** `normalizeStyle(value)`: an array is merged into a new record, a string
      or an object is returned as it is, anything else is `undefined`. */
  function NormalizeStyle(v: Js): (r: Js)
    decreases v, 1
    ensures v.Str? || v.Obj? ==> r == v
    ensures v.Arr? ==> r.Obj?
    ensures !(v.Arr? || v.Str? || v.Obj?) ==> r == Undefined
  {
    match v
    case Arr(items) => Obj(MergeRecords(ItemStyles(items, |items|)))
    case Str(_) => v
    case Obj(_) => v
    case _ => Undefined
  }

  /** The value the last record setting `k` gives it. */
  function LastStyle(rs: seq<seq<(string, Js)>>, k: string): Option<Js> {
    if rs == [] then None
    else
      var e := rs[|rs| - 1];
      if k in Keys(e) then Some(Get(e, k)) else LastStyle(rs[..|rs| - 1], k)
  }

  lemma {:induction false} MergeRecordsLookup(rs: seq<seq<(string, Js)>>, k: string)
    ensures Lookup(MergeRecords(rs), k) == LastStyle(rs, k)
  {
    if rs != [] {
      var e := rs[|rs| - 1];
      MergeRecordsLookup(rs[..|rs| - 1], k);
      MergeIntoLookup(MergeRecords(rs[..|rs| - 1]), e, e, k);
    }
  }

  /** Merging is left to right: every property of the array's style comes
      from the last item whose record sets it. */
  lemma NormalizeStyleArray(items: seq<Js>, k: string)
    ensures Lookup(NormalizeStyle(Arr(items)).entries, k) == LastStyle(ItemStyles(items, |items|), k)
  {
    MergeRecordsLookup(ItemStyles(items, |items|), k);
  }
}
