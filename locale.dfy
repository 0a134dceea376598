/** The translator of `utils/locale.ts`: a table of locale strings looked up
    by key, and a template engine that replaces every `$(path)` placeholder
    with the value the dotted `path` reaches in a data object. Loading the
    table (the `fetch` of a JSON file for the closest `lang`) is outside the
    model: the table is a parameter. */
module Locale {
  import opened TextOps

  /** The JavaScript values a template argument may hold. Numbers are
      integers here; arrays and functions are left out. */
  datatype Value =
    | Undefined
    | Null
    | Bool(b: bool)
    | Num(n: int)
    | Str(s: string)
    | Obj(fields: map<string, Value>)

  /** `p?.[c]`: an own property of an object, `undefined` for a missing
      property and, without throwing, for `null` and `undefined`. */
  function Get(p: Value, c: string): Value
  {
    if p.Obj? && c in p.fields then p.fields[c] else Undefined
  }

  /** `path.reduce((p, c) => p?.[c], data)`. */
  function Walk(p: Value, path: seq<string>): Value
    decreases |path|
  {
    if path == [] then p else Walk(Get(p, path[0]), path[1..])
  }

  /** The value a dotted path such as `a.b` reaches from `data`. */
  function Resolve(data: Value, path: string): Value
  {
    Walk(data, Split(path, '.'))
  }

  /** `${v}`: the string a template literal makes of a value. */
  function Render(v: Value): string
  {
    match v
    case Undefined => "undefined"
    case Null => "null"
    case Bool(b) => if b then "true" else "false"
    case Num(n) => IntToString(n)
    case Str(s) => s
    case Obj(_) => "[object Object]"
  }

  /** A template either produces its text or throws (a `TypeError`). */
  datatype Outcome = Ok(text: string) | TypeError

  function Prepend(p: string, o: Outcome): Outcome
  {
    if o.Ok? then Ok(p + o.text) else o
  }

  /** Index of the first `)` of `s`. */
  function CloseIndex(s: string): (j: nat)
    requires ')' in s
    ensures j < |s| && s[j] == ')'
    ensures forall k :: 0 <= k < j ==> s[k] != ')'
    decreases |s|
  {
    if s[0] == ')' then 0
    else
      assert ')' in s[1..] by {
        var k :| 0 <= k < |s| && s[k] == ')';
        assert s[1..][k - 1] == ')';
      }
      1 + CloseIndex(s[1..])
  }

  /** `TemplateEngine(tpl, data)`: `tpl.replace(/\$\(([^\)]+)?\)/g, ...)`.
      The scan tries each position from left to right; a match is `$(`, then
      everything up to the first `)`, then that `)`, and the scan goes on after
      it. An empty placeholder `$()` leaves the captured group `undefined`,
      whose `split` throws. */
  function Template(tpl: string, data: Value): Outcome
    decreases |tpl|
  {
    if StartsWith(tpl, "$(") && ')' in tpl[2..] then
      var j := CloseIndex(tpl[2..]);
      if j == 0 then TypeError
      else Prepend(Render(Resolve(data, tpl[2..2 + j])), Template(tpl[3 + j..], data))
    else if tpl == [] then Ok([])
    else Prepend(tpl[..1], Template(tpl[1..], data))
  }

  /** `strings[str] || str`: the table's entry for the key, or the key itself
      when the entry is missing or blank. The result is blank only for a
      blank key. */
  function Lookup(strings: map<string, string>, key: string): (r: string)
    ensures r == key || (key in strings && r == strings[key])
    ensures r == "" ==> key == ""
  {
    if key in strings && strings[key] != "" then strings[key] else key
  }

  /** The function `Translator` returns: `(str, ...args)`. The looked-up
      string is used as a template only when exactly one argument is given
      and it is an object (`typeof null` is `"object"` too). */
  function Translate(strings: map<string, string>, key: string, args: seq<Value>): (r: Outcome)
    ensures !(|args| == 1 && (args[0].Obj? || args[0].Null?)) ==> r == Ok(Lookup(strings, key))
  {
    var str := Lookup(strings, key);
    if |args| == 1 && (args[0].Obj? || args[0].Null?) then Template(str, args[0]) else Ok(str)
  }

  // ---------------------------------------------------------------------------
  // Properties

  /** A string without `$` holds no placeholder opening. */
  lemma NoDollarNoPlaceholder(text: string)
    requires '$' !in text
    ensures !Includes(text, "$(")
  {
    IncludesIff(text, "$(");
    forall k ensures !OccursAt(text, "$(", k) {
      if 0 <= k && k + 2 <= |text| {
        assert text[k] in text;
        assert text[k..k + 2][0] == text[k];
      }
    }
  }

  /** A template without placeholder openings comes back unchanged. */
  lemma {:induction false} TemplateWithoutPlaceholder(tpl: string, data: Value)
    requires !Includes(tpl, "$(")
    ensures Template(tpl, data) == Ok(tpl)
    decreases |tpl|
  {
    if tpl != [] {
      TemplateWithoutPlaceholder(tpl[1..], data);
      assert tpl[..1] + tpl[1..] == tpl;
    }
  }

  /** A template in which no `$(` is followed by a `)` holds no match of
      the placeholder pattern, so it comes back unchanged; an unclosed `$(`
      stays literal. */
  lemma {:induction false} TemplateWithoutMatch(tpl: string, data: Value)
    requires forall k :: OccursAt(tpl, "$(", k) ==> ')' !in tpl[k + 2..]
    ensures Template(tpl, data) == Ok(tpl)
    decreases |tpl|
  {
    if tpl != [] {
      if StartsWith(tpl, "$(") {
        assert OccursAt(tpl, "$(", 0);
      }
      TemplateAtLiteral(tpl, data);
      forall k | OccursAt(tpl[1..], "$(", k) ensures ')' !in tpl[1..][k + 2..] {
        assert tpl[1..][k..k + 2] == tpl[k + 1..k + 3];
        assert OccursAt(tpl, "$(", k + 1);
        assert tpl[1..][k + 2..] == tpl[k + 3..];
      }
      TemplateWithoutMatch(tpl[1..], data);
      assert tpl[..1] + tpl[1..] == tpl;
    }
  }

  /** A template without `)` comes back unchanged, whatever `$(` it holds. */
  lemma TemplateWithoutClose(tpl: string, data: Value)
    requires ')' !in tpl
    ensures Template(tpl, data) == Ok(tpl)
  {
    TemplateWithoutMatch(tpl, data);
  }

  /** Text without placeholder openings, and not ending in `$`, is copied
      in front of whatever the rest of the template produces. */
  lemma {:induction false} TemplateLiteralPrefix(text: string, rest: string, data: Value)
    requires !Includes(text, "$(")
    requires text == [] || text[|text| - 1] != '$'
    ensures Template(text + rest, data) == Prepend(text, Template(rest, data))
    decreases |text|
  {
    var t := text + rest;
    if text == [] {
      assert t == rest;
    } else {
      assert !StartsWith(t, "$(") by {
        if |text| >= 2 {
          assert t[..2] == text[..2];
          assert !StartsWith(text, "$(");
        } else {
          assert t[0] == text[0];
        }
      }
      TemplateAtLiteral(t, data);
      assert t[1..] == text[1..] + rest;
      assert t[..1] == text[..1];
      TemplateLiteralPrefix(text[1..], rest, data);
      PrependPrepend(text[..1], text[1..], Template(rest, data));
      assert text[..1] + text[1..] == text;
    }
  }

  /** One step of the scan at a character that does not start a `$(...)`
      match. */
  lemma TemplateAtLiteral(t: string, data: Value)
    requires t != [] && !(StartsWith(t, "$(") && ')' in t[2..])
    ensures Template(t, data) == Prepend(t[..1], Template(t[1..], data))
  {
  }

  lemma PrependPrepend(a: string, b: string, o: Outcome)
    ensures Prepend(a, Prepend(b, o)) == Prepend(a + b, o)
  {
    if o.Ok? {
      assert a + (b + o.text) == (a + b) + o.text;
    }
  }

  /** A placeholder `$(path)` is replaced by the rendered value of the path,
      and the scan goes on after its `)`. */
  lemma TemplatePlaceholder(path: string, rest: string, data: Value)
    requires path != [] && ')' !in path
    ensures Template("$(" + path + ")" + rest, data)
         == Prepend(Render(Resolve(data, path)), Template(rest, data))
  {
    var t := "$(" + path + ")" + rest;
    var u := path + ")" + rest;
    assert t[..2] == "$(" && t[2..] == u;
    assert u[|path|] == ')';
    forall k | 0 <= k < |path| ensures u[k] != ')' {
      assert u[k] == path[k] && path[k] in path;
    }
    assert CloseIndex(u) == |path|;
    assert u[..|path|] == path && u[|path| + 1..] == rest;
    TemplateAtPlaceholder(t, data);
  }

  /** One step of the scan at a `$(` that has a non-empty path before its `)`. */
  lemma TemplateAtPlaceholder(t: string, data: Value)
    requires StartsWith(t, "$(") && ')' in t[2..] && CloseIndex(t[2..]) > 0
    ensures var j := CloseIndex(t[2..]);
      Template(t, data) == Prepend(Render(Resolve(data, t[2..][..j])), Template(t[2..][j + 1..], data))
  {
    var j := CloseIndex(t[2..]);
    assert t[2..][..j] == t[2..2 + j];
    assert t[2..][j + 1..] == t[3 + j..];
  }

  /** An empty placeholder throws. */
  lemma TemplateEmptyPlaceholder(rest: string, data: Value)
    ensures Template("$()" + rest, data) == TypeError
  {
    var t := "$()" + rest;
    assert t[..2] == "$(";
    assert t[2..][0] == ')';
  }

  /** The template engine throws only where `$()` occurs. */
  lemma {:induction false} TemplateErrorNeedsEmptyPlaceholder(tpl: string, data: Value)
    requires Template(tpl, data) == TypeError
    ensures Includes(tpl, "$()")
    decreases |tpl|
  {
    if StartsWith(tpl, "$(") && ')' in tpl[2..] {
      var j := CloseIndex(tpl[2..]);
      if j == 0 {
        assert tpl[..3] == "$()";
      } else {
        ErrorAfterPlaceholder(tpl, data);
        TemplateErrorNeedsEmptyPlaceholder(tpl[3 + j..], data);
        IncludesSuffix(tpl, "$()", 3 + j);
      }
    } else {
      ErrorAfterLiteral(tpl, data);
      TemplateErrorNeedsEmptyPlaceholder(tpl[1..], data);
      IncludesSuffix(tpl, "$()", 1);
    }
  }

  /** A throw past a non-empty placeholder comes from the rest of the template. */
  lemma ErrorAfterPlaceholder(tpl: string, data: Value)
    requires StartsWith(tpl, "$(") && ')' in tpl[2..] && CloseIndex(tpl[2..]) > 0
    requires Template(tpl, data) == TypeError
    ensures Template(tpl[3 + CloseIndex(tpl[2..])..], data) == TypeError
  {
    var j := CloseIndex(tpl[2..]);
    TemplateAtPlaceholder(tpl, data);
    assert tpl[2..][j + 1..] == tpl[3 + j..];
  }

  /** A throw past a literal character comes from the rest of the template. */
  lemma ErrorAfterLiteral(tpl: string, data: Value)
    requires !(StartsWith(tpl, "$(") && ')' in tpl[2..])
    requires Template(tpl, data) == TypeError
    ensures tpl != [] && Template(tpl[1..], data) == TypeError
  {
    if tpl != [] {
      TemplateAtLiteral(tpl, data);
    }
  }

  /** Optional chaining never throws: past `null` or `undefined`, every
      further step gives `undefined`. */
  lemma {:induction false} WalkFromNothing(p: Value, path: seq<string>)
    requires p.Undefined? || (p.Null? && path != [])
    ensures Walk(p, path) == Undefined
    decreases |path|
  {
    if path != [] {
      assert Walk(p, path) == Walk(Undefined, path[1..]);
      WalkFromNothing(Undefined, path[1..]);
    }
  }

  /** Every path, dotted or not, resolves to `undefined` from `null` or
      `undefined` data. */
  lemma ResolveFromNothing(data: Value, path: string)
    requires data.Undefined? || data.Null?
    ensures Resolve(data, path) == Undefined
  {
    WalkFromNothing(data, Split(path, '.'));
  }

  /** A path without `.` is a single property lookup. */
  lemma ResolveKey(data: Value, key: string)
    requires '.' !in key
    ensures Resolve(data, key) == Get(data, key)
  {
    SplitWithoutSeparator(key, '.');
    assert Walk(data, [key]) == Walk(Get(data, key), []);
  }

  /** `a.b` looks up `a`, then the path `b` from there. */
  lemma ResolveDotted(data: Value, a: string, b: string)
    requires '.' !in a
    ensures Resolve(data, a + "." + b) == Resolve(Get(data, a), b)
  {
    SplitAfterPiece(a, '.', b);
    var parts := Split(a + "." + b, '.');
    assert parts[1..] == Split(b, '.');
  }

  /** A property the object does not have renders as `undefined`. */
  lemma MissingKeyRendersUndefined(fields: map<string, Value>, key: string)
    requires '.' !in key && key !in fields
    ensures Render(Resolve(Obj(fields), key)) == "undefined"
  {
    ResolveKey(Obj(fields), key);
  }

  /** The table's non-blank entry wins; otherwise the key is shown. */
  lemma LookupResult(strings: map<string, string>, key: string)
    ensures key in strings && strings[key] != "" ==> Lookup(strings, key) == strings[key]
    ensures key !in strings ==> Lookup(strings, key) == key
    ensures key in strings && strings[key] == "" ==> Lookup(strings, key) == key
  {
  }

  /** A translation without placeholder openings is returned as it is,
      whatever the arguments. */
  lemma TranslatePlain(strings: map<string, string>, key: string, args: seq<Value>)
    requires !Includes(Lookup(strings, key), "$(")
    ensures Translate(strings, key, args) == Ok(Lookup(strings, key))
  {
    if |args| == 1 && (args[0].Obj? || args[0].Null?) {
      TemplateWithoutPlaceholder(Lookup(strings, key), args[0]);
    }
  }

  /** Translating fails only for a string holding `$()`. */
  lemma TranslateErrorNeedsEmptyPlaceholder(strings: map<string, string>, key: string, args: seq<Value>)
    requires Translate(strings, key, args) == TypeError
    ensures Includes(Lookup(strings, key), "$()")
  {
    TemplateErrorNeedsEmptyPlaceholder(Lookup(strings, key), args[0]);
  }

  /** A table entry made of literal text and one `$(name)` placeholder,
      translated with an object holding `name`, gives the text followed by
      the value: e.g. `results_first` with `{ first: 'Soccer' }`. */
  lemma TranslateOnePlaceholder(key: string, text: string, name: string, v: string)
    requires '$' !in text
    requires name != [] && ')' !in name && '.' !in name
    ensures Translate(map[key := text + "$(" + name + ")"], key, [Obj(map[name := Str(v)])])
         == Ok(text + v)
  {
    var data := Obj(map[name := Str(v)]);
    var tpl := text + "$(" + name + ")";
    var table := map[key := tpl];
    assert Lookup(table, key) == tpl;
    assert Translate(table, key, [data]) == Template(tpl, data);
    assert tpl == text + ("$(" + name + ")" + []);
    NoDollarNoPlaceholder(text);
    TemplateLiteralPrefix(text, "$(" + name + ")" + [], data);
    TemplatePlaceholder(name, [], data);
    assert Template([], data) == Ok([]);
    ResolveKey(data, name);
    assert Render(Resolve(data, name)) == v;
    assert v + [] == v;
  }
}
