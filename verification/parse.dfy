/**
 * The helpers of the template parser (`compiler-core/src/parse.ts`): the
 * parser context and its options, cursors and selections, end-of-children
 * detection and the default entity decoder.
 */
module Parse {
  import opened Wrappers
  import opened JsStrings
  import opened JsValue
  import opened Position

  /** How text is read inside an element. */
  datatype TextModes = DATA | RCDATA | RAWTEXT | CDATA | ATTRIBUTE_VALUE

  /** An open ancestor element; only its tag matters here. */
  datatype Element = Element(tag: string)

  // ---------------------------------------------------------------- entities

  /** The entity `decodeRE` matches at the start of `s`, as its length and
      the character `decodeMap` gives it. */
  function EntityAt(s: string): (r: Option<(nat, char)>)
    ensures r.Some? ==> 4 <= r.value.0 <= |s| && s[0] == '&' && s[r.value.0 - 1] == ';'
    ensures |s| == 0 || s[0] != '&' ==> r.None?
  {
    if StartsWith(s, "&gt;") then Some((4, '>'))
    else if StartsWith(s, "&lt;") then Some((4, '<'))
    else if StartsWith(s, "&amp;") then Some((5, '&'))
    else if StartsWith(s, "&apos;") then Some((6, '\''))
    else if StartsWith(s, "&quot;") then Some((6, '"'))
    else None
  }

  /** The default `decodeEntities`: `rawText.replace(decodeRE, ...)`, one
      left-to-right pass in which every match is replaced by its character
      and the scan resumes after it. */
  function DecodeEntities(raw: string): (r: string)
    ensures |r| <= |raw|
    ensures (forall i | 0 <= i < |raw| :: raw[i] != '&') ==> r == raw
  {
    if raw == [] then []
    else
      match EntityAt(raw)
      case Some((len, c)) => [c] + DecodeEntities(raw[len..])
      case None => [raw[0]] + DecodeEntities(raw[1..])
  }

  /** The entity for each character `decodeMap` produces; other characters
      stand for themselves. */
  function EscapeChar(c: char): string {
    if c == '>' then "&gt;"
    else if c == '<' then "&lt;"
    else if c == '&' then "&amp;"
    else if c == '\'' then "&apos;"
    else if c == '"' then "&quot;"
    else [c]
  }

  /** Text with the five reserved characters written as entities. */
  function Escape(s: string): string {
    if s == [] then [] else EscapeChar(s[0]) + Escape(s[1..])
  }

  /** A string that differs from `prefix` at `i` does not start with it. */
  lemma Mismatch(s: string, prefix: string, i: nat)
    requires i < |prefix| && i < |s| && s[i] != prefix[i]
    ensures !StartsWith(s, prefix)
  {
  }

  lemma DecodeEscapeChar(c: char, rest: string)
    ensures DecodeEntities(EscapeChar(c) + rest) == [c] + DecodeEntities(rest)
  {
    var e := EscapeChar(c);
    var s := e + rest;
    assert s[..|e|] == e;
    assert s[|e|..] == rest;
    if c == '&' {
      Mismatch(s, "&gt;", 1);
      Mismatch(s, "&lt;", 1);
    } else if c == '\'' {
      Mismatch(s, "&gt;", 1);
      Mismatch(s, "&lt;", 1);
      Mismatch(s, "&amp;", 2);
    } else if c == '"' {
      Mismatch(s, "&gt;", 1);
      Mismatch(s, "&lt;", 1);
      Mismatch(s, "&amp;", 1);
      Mismatch(s, "&apos;", 1);
    }
  }

  /** Decoding undoes escaping: every character `decodeMap` produces has an
      entity, and decoding reads each back. */
  lemma {:induction false} DecodeEscape(s: string)
    ensures DecodeEntities(Escape(s)) == s
  {
    if s != [] {
      DecodeEscape(s[1..]);
      DecodeEscapeChar(s[0], Escape(s[1..]));
    }
  }

  // ---------------------------------------------------------------- options

  /** `defaultParserOptions`. Functions are identities: `NO` is one function
      shared by the three tag tests. */
  const NoFn := Fn(3)
  const Defaults: seq<(string, Js)> := [
    ("delimiters", Arr([Str("{{"), Str("}}")])),
    ("getNamespace", Fn(1)),
    ("getTextMode", Fn(2)),
    ("isVoidTag", NoFn),
    ("isPreTag", NoFn),
    ("isCustomElement", NoFn),
    ("decodeEntities", Fn(4)),
    ("onError", Fn(5)),
    ("onWarn", Fn(6)),
    ("comments", Bool(false))
  ]

  /** The value an option takes: a given value, or the default when the
      given one is `undefined`. */
  function OptionValue(raw: seq<(string, Js)>, key: string): Js {
    if Get(raw, key) == Undefined then Get(Defaults, key) else Get(raw, key)
  }

  /** The `for (key in rawOptions)` loop over the keys still to visit. */
  function ResolveOptions(options: seq<(string, Js)>, rest: seq<(string, Js)>, raw: seq<(string, Js)>): seq<(string, Js)>
    decreases |rest|
  {
    if rest == [] then options
    else ResolveOptions(Assign(options, rest[0].0, OptionValue(raw, rest[0].0)), rest[1..], raw)
  }

  lemma {:induction false} ResolveOptionsLookup(options: seq<(string, Js)>, rest: seq<(string, Js)>, raw: seq<(string, Js)>, k: string)
    decreases |rest|
    ensures Lookup(ResolveOptions(options, rest, raw), k) == if k in Keys(rest) then Some(OptionValue(raw, k)) else Lookup(options, k)
  {
    if rest != [] {
      LookupAssign(options, rest[0].0, OptionValue(raw, rest[0].0), k);
      ResolveOptionsLookup(Assign(options, rest[0].0, OptionValue(raw, rest[0].0)), rest[1..], raw, k);
      assert Keys(rest) == [rest[0].0] + Keys(rest[1..]);
    }
  }

  datatype ParserContext = ParserContext(
    options: seq<(string, Js)>,
    column: int,
    line: int,
    offset: int,
    originalSource: string,
    source: string,
    inPre: bool,
    inVPre: bool,
    onWarn: Js)

  /** `createParserContext(content, rawOptions)`. */
  function CreateParserContext(content: string, raw: seq<(string, Js)>): (ctx: ParserContext)
    ensures ctx.line == 1 && ctx.column == 1 && ctx.offset == 0
    ensures ctx.source == content && ctx.originalSource == content
    ensures !ctx.inPre && !ctx.inVPre
  {
    var options := ResolveOptions(Defaults, raw, raw);
    ParserContext(options, 1, 1, 0, content, content, false, false, Get(options, "onWarn"))
  }

  /** Every option of a new context is the given value, the default where
      the given value is `undefined` or missing; nothing else is set. */
  lemma CreateParserContextOptions(content: string, raw: seq<(string, Js)>, k: string)
    ensures Lookup(CreateParserContext(content, raw).options, k) ==
      if k in Keys(raw) then Some(OptionValue(raw, k)) else Lookup(Defaults, k)
  {
    ResolveOptionsLookup(Defaults, raw, raw, k);
  }

  /** The context's `onWarn` is the one given, or the default one when none
      (or `undefined`) is given. */
  lemma CreateParserContextOnWarn(content: string, raw: seq<(string, Js)>)
    ensures CreateParserContext(content, raw).onWarn == OptionValue(raw, "onWarn")
  {
    CreateParserContextOptions(content, raw, "onWarn");
  }

  // ---------------------------------------------------------------- cursors

  /** `getCursor(context)`. */
  function GetCursor(ctx: ParserContext): Position {
    Position(ctx.line, ctx.column, ctx.offset)
  }

  datatype Selection = Selection(start: Position, end: Position, source: string)

  /** `getSelection(context, start, end)`: `end` defaults to the cursor, and
      the text is the original source between the two offsets. */
  function GetSelection(ctx: ParserContext, start: Position, end: Option<Position>): (r: Selection)
    ensures r.start == start
    ensures end.Some? ==> r.end == end.value
    ensures end.None? ==> r.end.offset == ctx.offset && r.end.line == ctx.line && r.end.column == ctx.column
    ensures 0 <= start.offset <= r.end.offset <= |ctx.originalSource| ==>
      r.source == ctx.originalSource[start.offset..r.end.offset]
    ensures 0 <= r.end.offset <= start.offset ==> r.source == []
  {
    var e := if end.Some? then end.value else GetCursor(ctx);
    Selection(start, e, Slice(ctx.originalSource, start.offset, e.offset))
  }

  /** The selection from a position to the position reached by advancing
      over the next `n` characters is exactly those characters. */
  lemma SelectionOfAdvance(ctx: ParserContext, start: Position, n: nat)
    requires 0 <= start.offset && start.offset + n <= |ctx.originalSource|
    ensures GetSelection(ctx, start, Some(Advance(start, ctx.originalSource[start.offset..], n))).source
      == ctx.originalSource[start.offset..start.offset + n]
  {
  }

  /** `last(xs)`: the last element, `undefined` for an empty array. */
  function Last<T>(xs: seq<T>): (r: Option<T>)
    ensures r.None? <==> xs == []
    ensures r.Some? ==> r.value == xs[|xs| - 1] && r.value in xs
  {
    if xs == [] then None else Some(xs[|xs| - 1])
  }

  lemma LastPush<T>(xs: seq<T>, x: T)
    ensures Last(xs + [x]) == Some(x)
  {
  }

  // ---------------------------------------------------------------- end tags

  /** The characters that may follow a tag name: `[\t\r\n\f />]`. */
  predicate TagNameEnd(c: char) {
    c == '\t' || c == '\r' || c == '\n' || c == '\U{000C}' || c == ' ' || c == '/' || c == '>'
  }

  /** `startsWithEndTagOpen(source, tag)`. */
  function StartsWithEndTagOpen(source: string, tag: string): (r: bool)
    // `</`, the tag name in any letter case, then the end of the source or a
    // character that ends a tag name
    ensures r <==>
      && 2 + |tag| <= |source|
      && source[0] == '<' && source[1] == '/'
      && (forall i | 0 <= i < |tag| :: ToLower(source[2 + i]) == ToLower(tag[i]))
      && (2 + |tag| == |source| || TagNameEnd(source[2 + |tag|]))
  {
    OpensEndTag(source);
    if |source| < 2 then false
    else
      var next := if 2 + |tag| < |source| then source[2 + |tag|] else '>';
      var name := LowerCase(Slice(source, 2, 2 + |tag|));
      EndTagName(source, tag);
      StartsWith(source, "</") && name == LowerCase(tag) && TagNameEnd(next)
  }

  lemma OpensEndTag(source: string)
    ensures StartsWith(source, "</") <==> 2 <= |source| && source[0] == '<' && source[1] == '/'
  {
    if 2 <= |source| && source[0] == '<' && source[1] == '/' {
      assert source[..2] == "</";
    }
  }

  /** After `</`, the lower-cased characters the tag's length covers equal
      the lower-cased tag exactly when the source is long enough and they
      match letter by letter. */
  lemma EndTagName(source: string, tag: string)
    requires 2 <= |source|
    ensures LowerCase(Slice(source, 2, 2 + |tag|)) == LowerCase(tag) <==>
      2 + |tag| <= |source| && forall i | 0 <= i < |tag| :: ToLower(source[2 + i]) == ToLower(tag[i])
  {
    var name := Slice(source, 2, 2 + |tag|);
    if 2 + |tag| <= |source| {
      SameLowerCase(name, tag);
      forall i | 0 <= i < |tag|
        ensures name[i] == source[2 + i]
      {
      }
    } else {
      assert |LowerCase(name)| < |tag|;
    }
  }

  lemma SameLowerCase(a: string, b: string)
    requires |a| == |b|
    ensures LowerCase(a) == LowerCase(b) <==> forall i | 0 <= i < |a| :: ToLower(a[i]) == ToLower(b[i])
  {
    if forall i | 0 <= i < |a| :: ToLower(a[i]) == ToLower(b[i]) {
      assert forall i | 0 <= i < |a| :: LowerCase(a)[i] == LowerCase(b)[i];
    }
  }

  /** Some ancestor's end tag opens the source. */
  predicate ClosesAncestor(source: string, ancestors: seq<Element>) {
    exists i | 0 <= i < |ancestors| :: StartsWithEndTagOpen(source, ancestors[i].tag)
  }

  /** `isEnd(context, mode, ancestors)`: in DATA mode the children end at the
      end tag of any open ancestor, searched from the innermost outwards; in
      every mode they end with the source. */
  method IsEnd(source: string, mode: TextModes, ancestors: seq<Element>) returns (r: bool)
    ensures r <==> source == [] || (mode == DATA && ClosesAncestor(source, ancestors))
  {
    if mode == DATA {
      if StartsWith(source, "</") {
        var i := |ancestors| - 1;
        while i >= 0
          invariant -1 <= i < |ancestors|
          invariant forall j | i < j < |ancestors| :: !StartsWithEndTagOpen(source, ancestors[j].tag)
        {
          if StartsWithEndTagOpen(source, ancestors[i].tag) {
            return true;
          }
          i := i - 1;
        }
      } else {
        assert !ClosesAncestor(source, ancestors);
      }
    }
    return source == [];
  }
}
