/** The escaped list codec behind `<field>__in` filters (core/app/filter_values.py). */
module FilterValues {
  import opened Wrappers

  const BACKSLASH: char := '\\'
  const COMMA: char := ','

  // ---------------------------------------------------------------- writer

  /** `str.replace` with a one-character pattern. */
  function Replace(s: string, c: char, with: string): string {
    if s == "" then ""
    else (if s[0] == c then with else [s[0]]) + Replace(s[1..], c, with)
  }

  /** Backslashes first, then commas: two successive passes over the whole string. */
  function EscapeInValue(value: string): string {
    Replace(Replace(value, BACKSLASH, [BACKSLASH, BACKSLASH]), COMMA, [BACKSLASH, COMMA])
  }

  /** `",".join(escape_in_value(v) for v in values)`. */
  function JoinEscaped(values: seq<string>): string {
    if values == [] then ""
    else if |values| == 1 then EscapeInValue(values[0])
    else EscapeInValue(values[0]) + [COMMA] + JoinEscaped(values[1..])
  }

  /** What escaping does to one character, independently of its neighbours. */
  function EscapeChar(c: char): string {
    if c == BACKSLASH || c == COMMA then [BACKSLASH, c] else [c]
  }

  lemma {:induction false} ReplaceConcat(a: string, b: string, c: char, with: string)
    ensures Replace(a + b, c, with) == Replace(a, c, with) + Replace(b, c, with)
  {
    if a == "" {
      assert a + b == b;
    } else {
      assert (a + b)[1..] == a[1..] + b;
      ReplaceConcat(a[1..], b, c, with);
    }
  }

  /** The two passes do not interfere: escaping works character by character. */
  lemma {:induction false} EscapeIsPerCharacter(c: char, rest: string)
    ensures EscapeInValue([c] + rest) == EscapeChar(c) + EscapeInValue(rest)
    ensures EscapeInValue("") == ""
  {
    assert ([c] + rest)[1..] == rest;
    var first := if c == BACKSLASH then [BACKSLASH, BACKSLASH] else [c];
    ReplaceConcat(first, Replace(rest, BACKSLASH, [BACKSLASH, BACKSLASH]), COMMA, [BACKSLASH, COMMA]);
    if c == BACKSLASH {
      assert first[1..] == [BACKSLASH] && first[1..][1..] == "";
    } else {
      assert first[1..] == "";
    }
  }

  // ---------------------------------------------------------------- scanner

  /** The scanner on the rest of the input, `current` being the value under construction. */
  function Scan(raw: string, current: string): seq<string>
    decreases |raw|
  {
    if raw == "" then [current]
    else if raw[0] == BACKSLASH then
      if |raw| == 1 then [current + [BACKSLASH]] else Scan(raw[2..], current + [raw[1]])
    else if raw[0] == COMMA then [current] + Scan(raw[1..], "")
    else Scan(raw[1..], current + [raw[0]])
  }

  method SplitInValues(raw: string) returns (values: seq<string>)
    ensures values == Scan(raw, "")
  {
    values := [];
    var current := "";
    var i := 0;
    while i < |raw|
      invariant 0 <= i <= |raw|
      invariant values + Scan(raw[i..], current) == Scan(raw, "")
    {
      var ch := raw[i];
      i := i + 1;
      if ch == BACKSLASH {
        // next(chars, "\\"): the following character, or the backslash itself at the end
        if i < |raw| {
          current := current + [raw[i]];
          i := i + 1;
        } else {
          current := current + [BACKSLASH];
        }
      } else if ch == COMMA {
        values := values + [current];
        current := "";
      } else {
        current := current + [ch];
      }
    }
    values := values + [current];
  }

  // ---------------------------------------------------------------- round trips

  lemma {:induction false} ScanEscaped(value: string, rest: string, current: string)
    ensures Scan(EscapeInValue(value) + rest, current) == Scan(rest, current + value)
    decreases |value|
  {
    if value == "" {
      EscapeIsPerCharacter('a', "");
      assert EscapeInValue(value) + rest == rest && current + value == current;
    } else {
      var c, tail := value[0], value[1..];
      assert value == [c] + tail;
      EscapeIsPerCharacter(c, tail);
      var after := EscapeInValue(tail) + rest;
      assert EscapeInValue(value) + rest == EscapeChar(c) + after;
      if c == BACKSLASH || c == COMMA {
        assert (EscapeChar(c) + after)[2..] == after;
      } else {
        assert (EscapeChar(c) + after)[1..] == after;
      }
      ScanEscaped(tail, rest, current + [c]);
      assert current + [c] + tail == current + value;
    }
  }

  /** Every non-empty list comes back unchanged, whatever its strings contain. */
  lemma {:induction false} SplitAfterJoin(values: seq<string>)
    requires values != []
    ensures Scan(JoinEscaped(values), "") == values
    decreases |values|
  {
    var v := values[0];
    if |values| == 1 {
      assert EscapeInValue(v) + "" == EscapeInValue(v) && "" + v == v;
      ScanEscaped(v, "", "");
    } else {
      var rest := [COMMA] + JoinEscaped(values[1..]);
      assert JoinEscaped(values) == EscapeInValue(v) + rest;
      ScanEscaped(v, rest, "");
      assert "" + v == v && rest[1..] == JoinEscaped(values[1..]);
      SplitAfterJoin(values[1..]);
    }
  }

  /** The text on its characters: a comma separates, a backslash makes the next character literal, and
      at the end stands for itself; anything else is itself. */
  lemma TextHolds(c: char, rest: string, current: string)
    ensures Scan("", current) == [current]
    ensures Scan([','] + rest, current) == [current] + Scan(rest, "")
    ensures Scan(['\\', c] + rest, current) == Scan(rest, current + [c])
    ensures Scan(['\\'], current) == [current + ['\\']]
    ensures c != ',' && c != '\\' ==> Scan([c] + rest, current) == Scan(rest, current + [c])
  {
    assert ([','] + rest)[1..] == rest && (['\\', c] + rest)[2..] == rest && ([c] + rest)[1..] == rest;
  }

  /** Escaping on its characters: a backslash before each comma and each backslash. */
  lemma EscapeHolds(c: char, rest: string)
    ensures EscapeInValue("") == ""
    ensures EscapeInValue([c] + rest) == (if c == ',' || c == '\\' then ['\\', c] else [c]) + EscapeInValue(rest)
  {
    EscapeIsPerCharacter(c, rest);
  }

  lemma {:induction false} ScanNonEmpty(raw: string, current: string)
    ensures Scan(raw, current) != []
    decreases |raw|
  {
    if raw != "" && raw[0] == BACKSLASH && |raw| > 1 {
      ScanNonEmpty(raw[2..], current + [raw[1]]);
    } else if raw != "" && raw[0] != COMMA && raw[0] != BACKSLASH {
      ScanNonEmpty(raw[1..], current + [raw[0]]);
    }
  }

  /** The round trip of a list holds exactly when the list is not empty: the empty list is
      written as the empty string, which reads back as one empty value. */
  lemma SplitAfterJoinIff(values: seq<string>)
    ensures Scan(JoinEscaped(values), "") == values <==> values != []
  {
    if values != [] {
      SplitAfterJoin(values);
    }
  }

  /** Texts the writer can produce: every backslash escapes a backslash or a comma. */
  predicate WellEscaped(raw: string)
    decreases |raw|
  {
    if raw == "" then true
    else if raw[0] == BACKSLASH then
      |raw| > 1 && (raw[1] == BACKSLASH || raw[1] == COMMA) && WellEscaped(raw[2..])
    else WellEscaped(raw[1..])
  }

  lemma {:induction false} JoinPrefix(prefix: string, values: seq<string>)
    requires values != []
    ensures JoinEscaped([prefix + values[0]] + values[1..]) == EscapeInValue(prefix) + JoinEscaped(values)
  {
    EscapeConcat(prefix, values[0]);
    var joined := [prefix + values[0]] + values[1..];
    assert joined[1..] == values[1..];
  }

  lemma {:induction false} EscapeConcat(a: string, b: string)
    ensures EscapeInValue(a + b) == EscapeInValue(a) + EscapeInValue(b)
  {
    ReplaceConcat(a, b, BACKSLASH, [BACKSLASH, BACKSLASH]);
    ReplaceConcat(Replace(a, BACKSLASH, [BACKSLASH, BACKSLASH]),
                  Replace(b, BACKSLASH, [BACKSLASH, BACKSLASH]), COMMA, [BACKSLASH, COMMA]);
  }

  /** Scanning never looks at `current`; it only prefixes the first value with it. */
  lemma {:induction false} ScanPrefix(raw: string, current: string)
    ensures Scan(raw, "") != []
    ensures Scan(raw, current) == [current + Scan(raw, "")[0]] + Scan(raw, "")[1..]
    decreases |raw|
  {
    ScanNonEmpty(raw, "");
    if raw == "" {
      assert current + "" == current;
    } else if raw[0] == BACKSLASH {
      if |raw| > 1 {
        ScanPrefix(raw[2..], current + [raw[1]]);
        ScanPrefix(raw[2..], "" + [raw[1]]);
        assert current + [raw[1]] + Scan(raw[2..], "")[0] == current + ("" + [raw[1]] + Scan(raw[2..], "")[0]);
      } else {
        assert current + [BACKSLASH] == current + ("" + [BACKSLASH]);
      }
    } else if raw[0] == COMMA {
      assert current + "" == current;
      assert ([""] + Scan(raw[1..], ""))[1..] == Scan(raw[1..], "");
    } else {
      ScanPrefix(raw[1..], current + [raw[0]]);
      ScanPrefix(raw[1..], "" + [raw[0]]);
      assert current + [raw[0]] + Scan(raw[1..], "")[0] == current + ("" + [raw[0]] + Scan(raw[1..], "")[0]);
    }
  }

  /** Rewriting what was read gives the same text back exactly for well-escaped texts. */
  lemma {:induction false} JoinAfterSplitIff(raw: string)
    ensures JoinEscaped(Scan(raw, "")) == raw <==> WellEscaped(raw)
    decreases |raw|
  {
    ScanNonEmpty(raw, "");
    if raw == "" {
      EscapeIsPerCharacter('a', "");
    } else if raw[0] == BACKSLASH {
      EscapeIsPerCharacter(if |raw| == 1 then BACKSLASH else raw[1], "");
      if |raw| == 1 {
        assert "" + [BACKSLASH] == [BACKSLASH] + "";
        assert |JoinEscaped(Scan(raw, ""))| == 2;
      } else {
        var c, rest := raw[1], raw[2..];
        ScanPrefix(rest, "" + [c]);
        JoinPrefix("" + [c], Scan(rest, ""));
        assert "" + [c] == [c] + "";
        var back := JoinEscaped(Scan(rest, ""));
        assert JoinEscaped(Scan(raw, "")) == EscapeChar(c) + back;
        assert raw == [BACKSLASH, c] + rest;
        if c == BACKSLASH || c == COMMA {
          assert (EscapeChar(c) + back)[2..] == back && raw[2..] == rest;
        } else {
          assert (EscapeChar(c) + back)[0] == c;
        }
        JoinAfterSplitIff(rest);
      }
    } else if raw[0] == COMMA {
      EscapeIsPerCharacter('a', "");
      var rest := raw[1..];
      var tail := Scan(rest, "");
      ScanNonEmpty(rest, "");
      assert Scan(raw, "") == [""] + tail && ([""] + tail)[1..] == tail;
      assert JoinEscaped(Scan(raw, "")) == [COMMA] + JoinEscaped(tail);
      assert ([COMMA] + JoinEscaped(tail))[1..] == JoinEscaped(tail);
      JoinAfterSplitIff(rest);
    } else {
      var c, rest := raw[0], raw[1..];
      EscapeIsPerCharacter(c, "");
      ScanPrefix(rest, "" + [c]);
      JoinPrefix("" + [c], Scan(rest, ""));
      assert "" + [c] == [c] + "";
      var back := JoinEscaped(Scan(rest, ""));
      assert JoinEscaped(Scan(raw, "")) == [c] + back;
      assert ([c] + back)[1..] == back;
      JoinAfterSplitIff(rest);
    }
  }

  // ---------------------------------------------------------------- query strings

  function EndsWithIn(key: string): bool {
    |key| >= 4 && key[|key| - 4..] == "__in"
  }

  /** The values given for one key, in the order of the query string. */
  function Occurrences(items: seq<(string, string)>, key: string): seq<string> {
    if items == [] then []
    else
      var last := items[|items| - 1];
      Occurrences(items[..|items| - 1], key) + if last.0 == key then [last.1] else []
  }

  /** The values a folded filter stands for, as its readers see it. */
  function ReadBack(key: string, folded: string): seq<string> {
    if EndsWithIn(key) then Scan(folded, "") else [folded]
  }

  method FoldQueryFilters(items: seq<(string, string)>, reserved: set<string>)
    returns (filters: map<string, string>)
    ensures forall key :: key in filters <==> key !in reserved && Occurrences(items, key) != []
    // a repeated __in parameter keeps every occurrence literally and in order
    ensures forall key :: key in filters && EndsWithIn(key) && |Occurrences(items, key)| > 1 ==>
      ReadBack(key, filters[key]) == Occurrences(items, key)
    // anything else keeps its last occurrence, byte for byte
    ensures forall key :: key in filters && (!EndsWithIn(key) || |Occurrences(items, key)| == 1) ==>
      filters[key] == Occurrences(items, key)[|Occurrences(items, key)| - 1]
    // on the names: so for every field with the suffix
    ensures forall field: string :: field + "__in" in filters && |Occurrences(items, field + "__in")| > 1 ==>
      Scan(filters[field + "__in"], "") == Occurrences(items, field + "__in")
    ensures forall key :: key in filters && (|key| < 4 || key[|key| - 4..] != "__in") ==>
      filters[key] == Occurrences(items, key)[|Occurrences(items, key)| - 1]
  {
    var seen: map<string, seq<string>> := map[];
    for i := 0 to |items|
      invariant forall key :: key in seen <==> key !in reserved && Occurrences(items[..i], key) != []
      invariant forall key :: key in seen ==> seen[key] == Occurrences(items[..i], key)
    {
      var (key, value) := items[i];
      assert items[..i + 1][..|items[..i + 1]| - 1] == items[..i];
      assert items[..i + 1][|items[..i + 1]| - 1] == items[i];
      if key !in reserved {
        if key !in seen {
          seen := seen[key := []];
        }
        seen := seen[key := seen[key] + [value]];
      }
    }
    assert items[..|items|] == items;
    filters := map key | key in seen ::
      if EndsWithIn(key) && |seen[key]| > 1 then JoinEscaped(seen[key]) else seen[key][|seen[key]| - 1];
    forall key | key in filters && EndsWithIn(key) && |Occurrences(items, key)| > 1
      ensures ReadBack(key, filters[key]) == Occurrences(items, key)
    {
      SplitAfterJoin(seen[key]);
    }
    forall field: string | field + "__in" in filters && |Occurrences(items, field + "__in")| > 1
      ensures Scan(filters[field + "__in"], "") == Occurrences(items, field + "__in")
    {
      HasSuffix(field);
    }
  }

  lemma HasSuffix(field: string)
    ensures EndsWithIn(field + "__in")
  {
  }

  // ---------------------------------------------------------------- structured filters

  /** A structured filter value after `str()`: one scalar or a list of scalars. */
  datatype FilterValue = Scalar(text: string) | ListOf(texts: seq<string>)

  function NormalizeFilters(filters: Option<map<string, FilterValue>>): (r: Option<map<string, string>>)
    ensures r.None? <==> filters.None? || filters.value == map[]
    ensures r.Some? ==> r.value.Keys == filters.value.Keys
    ensures r.Some? ==> forall key :: key in r.value && filters.value[key].Scalar? ==>
      r.value[key] == filters.value[key].text
    // a list is recovered from its `__in` text exactly when it is not empty
    ensures r.Some? ==> forall key :: key in r.value && filters.value[key].ListOf? ==>
      (Scan(r.value[key], "") == filters.value[key].texts <==> filters.value[key].texts != [])
  {
    if filters.None? || filters.value == map[] then None
    else
      var r := map key | key in filters.value ::
        match filters.value[key]
        case Scalar(text) => text
        case ListOf(texts) => JoinEscaped(texts);
      assert forall key :: key in r && filters.value[key].ListOf? ==>
        (Scan(r[key], "") == filters.value[key].texts <==> filters.value[key].texts != []) by {
        forall key | key in r && filters.value[key].ListOf? {
          SplitAfterJoinIff(filters.value[key].texts);
        }
      }
      Some(r)
  }

  /** Different non-empty lists are never folded into the same text. */
  lemma JoinInjective(a: seq<string>, b: seq<string>)
    requires a != [] && b != []
    ensures JoinEscaped(a) == JoinEscaped(b) <==> a == b
  {
    SplitAfterJoin(a);
    SplitAfterJoin(b);
  }
}
