/** The two template filters: `get_item` (safe dictionary lookup) and
    `slugify_custom` (CSS class names from labels). */
module Filters {
  import opened Values

  /** `get_item(dictionary, key)`; Python's `None` is `Null`. */
  function GetItem(dictionary: Value, key: string): (r: Value)
    ensures dictionary.Object? && key in dictionary.fields ==> r == dictionary.fields[key]
    ensures dictionary.Object? && key !in dictionary.fields ==> r == Null
    ensures !dictionary.Object? ==> r == Null
  {
    if dictionary.Object? && key in dictionary.fields then dictionary.fields[key] else Null
  }

  /** A lookup cannot tell a stored null from an absent key. */
  lemma GetItemNullOrAbsent(fields: map<string, Value>, key: string)
    requires key in fields && fields[key] == Null
    ensures GetItem(Object(fields), key) == GetItem(Object(fields - {key}), key)
  {
  }

  // ---------------------------------------------------------------------
  // slugify_custom

  predicate IsAscii(s: string) {
    forall i :: 0 <= i < |s| ==> s[i] < '\U{80}'
  }

  function DigitChar(d: nat): char
    requires d < 10
  {
    "0123456789"[d]
  }

  /** Decimal digits of a natural number, most significant first. */
  function Digits(n: nat): string
    decreases n
  {
    if n < 10 then [DigitChar(n)] else Digits(n / 10) + [DigitChar(n % 10)]
  }

  /** `str(value)`. The text of a list or an object depends on Python's
      `repr` and on dict ordering, so it is supplied by `composite`. */
  function PyStr(v: Value, composite: Value -> string): string {
    match v
    case Null => "None"
    case Bool(b) => if b then "True" else "False"
    case Num(n) => if n < 0 then "-" + Digits(-n) else Digits(n)
    case Str(s) => s
    case List(_) => composite(v)
    case Object(_) => composite(v)
  }

  /** `str.lower()` one character at a time: ASCII capitals map to small
      letters, other ASCII stays; the Unicode case mapping of anything else
      is supplied by `lowerOther`. */
  function LowerChar(c: char, lowerOther: char -> string): string {
    if 'A' <= c <= 'Z' then [(c as int + 32) as char]
    else if c < '\U{80}' then [c]
    else lowerOther(c)
  }

  function Lower(s: string, lowerOther: char -> string): string {
    if s == [] then [] else Lower(s[..|s| - 1], lowerOther) + LowerChar(s[|s| - 1], lowerOther)
  }

  predicate IsSeparator(c: char) {
    c == ' ' || c == '/' || c == '.'
  }

  /** The three `.replace(..., '-')` calls; their order does not matter
      because each writes `-`, which none of them reads. */
  function DashSeparators(s: string): (r: string)
    ensures |r| == |s|
    ensures forall i :: 0 <= i < |s| ==> r[i] == (if IsSeparator(s[i]) then '-' else s[i])
  {
    if s == [] then [] else DashSeparators(s[..|s| - 1]) + [if IsSeparator(s[|s| - 1]) then '-' else s[|s| - 1]]
  }

  /** `slugify_custom(value)` */
  function SlugifyCustom(value: Value, lowerOther: char -> string, composite: Value -> string): (r: string)
    ensures !Truthy(value) ==> r == []
    ensures forall i :: 0 <= i < |r| ==> !IsSeparator(r[i])
  {
    if !Truthy(value) then [] else DashSeparators(Lower(PyStr(value, composite), lowerOther))
  }

  /** What one ASCII character becomes. */
  function SlugChar(c: char): char {
    if 'A' <= c <= 'Z' then (c as int + 32) as char
    else if IsSeparator(c) then '-'
    else c
  }

  lemma {:induction false} LowerAscii(s: string, lowerOther: char -> string)
    requires IsAscii(s)
    ensures |Lower(s, lowerOther)| == |s|
    ensures forall i :: 0 <= i < |s| ==> Lower(s, lowerOther)[i] == LowerChar(s[i], lowerOther)[0]
  {
    if s != [] {
      LowerAscii(s[..|s| - 1], lowerOther);
    }
  }

  /** Lowering then dashing one ASCII character gives its slug character,
      and a slug character is ASCII and its own slug character. */
  lemma SlugCharStep(c: char, lowerOther: char -> string)
    requires c < '\U{80}'
    ensures var l := LowerChar(c, lowerOther)[0];
            (if IsSeparator(l) then '-' else l) == SlugChar(c)
    ensures SlugChar(c) < '\U{80}' && SlugChar(SlugChar(c)) == SlugChar(c)
  {
  }

  /** On ASCII text the slug has the input's length, small letters for
      capitals, `-` for space, `/` and `.`, and every other character as is. */
  lemma SlugifyAscii(s: string, lowerOther: char -> string, composite: Value -> string)
    requires IsAscii(s) && s != []
    ensures |SlugifyCustom(Str(s), lowerOther, composite)| == |s|
    ensures forall i :: 0 <= i < |s| ==> SlugifyCustom(Str(s), lowerOther, composite)[i] == SlugChar(s[i])
  {
    SlugOfText(s, lowerOther, composite);
    var low := Lower(s, lowerOther);
    LowerAscii(s, lowerOther);
    var slug := DashSeparators(low);
    forall i | 0 <= i < |s| ensures slug[i] == SlugChar(s[i]) {
      SlugCharStep(s[i], lowerOther);
    }
  }

  lemma SlugOfText(s: string, lowerOther: char -> string, composite: Value -> string)
    requires s != []
    ensures SlugifyCustom(Str(s), lowerOther, composite) == DashSeparators(Lower(s, lowerOther))
  {
  }

  /** On ASCII text, slugifying a slug changes nothing. */
  lemma SlugifyIdempotent(s: string, lowerOther: char -> string, composite: Value -> string)
    requires IsAscii(s)
    ensures var once := SlugifyCustom(Str(s), lowerOther, composite);
            SlugifyCustom(Str(once), lowerOther, composite) == once
  {
    var once := SlugifyCustom(Str(s), lowerOther, composite);
    if s != [] {
      SlugifyAscii(s, lowerOther, composite);
      forall i | 0 <= i < |once| ensures once[i] < '\U{80}' && SlugChar(once[i]) == once[i] {
        SlugCharStep(s[i], lowerOther);
      }
      SlugifyAscii(once, lowerOther, composite);
    }
  }
}
