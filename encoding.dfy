/**
 * The text encoding used for PDF output with the standard (latin-1) fonts:
 * French accented letters are first transliterated to their base letters,
 * then every character latin-1 cannot represent becomes '?'.
 */
module Encoding {

  /** The transliteration table, in the order its entries are applied. */
  const Replacements: seq<(char, char)> := [
    ('é', 'e'), ('è', 'e'), ('ê', 'e'), ('ë', 'e'),
    ('à', 'a'), ('â', 'a'), ('ä', 'a'),
    ('ù', 'u'), ('û', 'u'), ('ü', 'u'),
    ('ô', 'o'), ('ö', 'o'),
    ('î', 'i'), ('ï', 'i'),
    ('ç', 'c'),
    ('É', 'E'), ('È', 'E'), ('Ê', 'E'), ('Ë', 'E'),
    ('À', 'A'), ('Â', 'A'), ('Ä', 'A'),
    ('Ù', 'U'), ('Û', 'U'), ('Ü', 'U'),
    ('Ô', 'O'), ('Ö', 'O'),
    ('Î', 'I'), ('Ï', 'I'),
    ('Ç', 'C')
  ]

  /** A character is a key of a table when some entry replaces it. */
  predicate IsKey(table: seq<(char, char)>, c: char) {
    exists k :: 0 <= k < |table| && table[k].0 == c
  }

  /** No replacement produces a character that a (later or earlier) entry would replace again. */
  predicate NoChains(table: seq<(char, char)>) {
    forall k, j :: 0 <= k < |table| && 0 <= j < |table| ==> table[k].1 != table[j].0
  }

  /** Every occurrence of `a` in `s` replaced by `b` (string replace of one character). */
  function ReplaceChar(s: string, a: char, b: char): (r: string)
    ensures |r| == |s|
    ensures forall i :: 0 <= i < |s| ==> r[i] == if s[i] == a then b else s[i]
    ensures a != b ==> a !in r
  {
    if s == [] then [] else [if s[0] == a then b else s[0]] + ReplaceChar(s[1..], a, b)
  }

  /** The table's entries applied one after the other, first entry first. */
  function ApplyReplacements(table: seq<(char, char)>, s: string): (r: string)
    ensures |r| == |s|
  {
    if table == [] then s else ApplyReplacements(table[1..], ReplaceChar(s, table[0].0, table[0].1))
  }

  /** What the table does to one character: the value of the first entry keyed by it, if any. */
  function Transliterate(table: seq<(char, char)>, c: char): (r: char)
    ensures IsKey(table, c) || r == c
    ensures forall k ::
              (0 <= k < |table| && table[k].0 == c && forall j :: 0 <= j < k ==> table[j].0 != c) ==> r == table[k].1
  {
    if table == [] then c
    else if table[0].0 == c then table[0].1
    else Transliterate(table[1..], c)
  }

  /** Latin-1 encoding with the 'replace' error handler, decoded back. */
  function Latin1Replace(s: string): (r: string)
    ensures |r| == |s|
    ensures forall i :: 0 <= i < |s| ==> r[i] == if s[i] as int < 256 then s[i] else '?'
  {
    if s == [] then [] else [if s[0] as int < 256 then s[0] else '?'] + Latin1Replace(s[1..])
  }

  /** The whole encoding of one character. */
  function EncodeChar(c: char): (r: char)
    ensures r as int < 256
    ensures !IsKey(Replacements, c) ==> r == if c as int < 256 then c else '?'
  {
    var t := Transliterate(Replacements, c);
    if t as int < 256 then t else '?'
  }

  /** Applying a chain-free table is the same as transliterating each character on its own. */
  lemma {:induction false} ApplyReplacementsAt(table: seq<(char, char)>, s: string, i: int)
    requires NoChains(table)
    requires 0 <= i < |s|
    ensures ApplyReplacements(table, s)[i] == Transliterate(table, s[i])
  {
    if table != [] {
      var s' := ReplaceChar(s, table[0].0, table[0].1);
      var rest := table[1..];
      assert NoChains(rest) by {
        forall k, j | 0 <= k < |rest| && 0 <= j < |rest| ensures rest[k].1 != rest[j].0 {
          assert rest[k] == table[k + 1] && rest[j] == table[j + 1];
        }
      }
      ApplyReplacementsAt(rest, s', i);
      if s[i] == table[0].0 {
        // the replacement is never replaced again
        assert s'[i] == table[0].1;
        TransliterateNonKey(rest, s'[i]);
      }
    }
  }

  /** A character no entry of the table is keyed by stays as it is. */
  lemma {:induction false} TransliterateNonKey(table: seq<(char, char)>, c: char)
    requires forall k :: 0 <= k < |table| ==> table[k].0 != c
    ensures Transliterate(table, c) == c
  {
    if table != [] {
      assert forall k :: 0 <= k < |table[1..]| ==> table[1..][k] == table[k + 1];
      TransliterateNonKey(table[1..], c);
    }
  }

  /** The shape of the table: accented keys in the latin-1 upper half, ASCII values. */
  lemma ReplacementsShape()
    ensures forall k :: 0 <= k < |Replacements| ==> 0xC0 <= Replacements[k].0 as int < 256
    ensures forall k :: 0 <= k < |Replacements| ==> Replacements[k].1 as int < 128
    ensures NoChains(Replacements)
  {
  }

  /** Keys of the table are pairwise distinct, so each is mapped by its own entry. */
  lemma ReplacementsDistinct()
    ensures forall k, j :: 0 <= k < j < |Replacements| ==> Replacements[k].0 != Replacements[j].0
  {
  }

  /**
   * What `encode_str` does to a character: an accented letter of the table becomes its base
   * letter, any other latin-1 character is kept, anything else becomes '?'.
   */
  lemma EncodeCharCases(c: char)
    ensures forall k :: 0 <= k < |Replacements| && Replacements[k].0 == c ==> EncodeChar(c) == Replacements[k].1
    ensures !IsKey(Replacements, c) ==> EncodeChar(c) == if c as int < 256 then c else '?'
    ensures EncodeChar(c) as int < 256
    ensures !IsKey(Replacements, EncodeChar(c))
  {
    ReplacementsShape();
    ReplacementsDistinct();
    if !IsKey(Replacements, c) {
      TransliterateNonKey(Replacements, c);
    }
  }

  /** The two steps of encode_str, character by character. */
  lemma {:induction false} EncodeAt(s: string)
    ensures var r := Latin1Replace(ApplyReplacements(Replacements, s));
      && |r| == |s|
      && (forall i :: 0 <= i < |s| ==> r[i] == EncodeChar(s[i]))
      && (forall i :: 0 <= i < |r| ==> r[i] as int < 256 && !IsKey(Replacements, r[i]))
  {
    var r := Latin1Replace(ApplyReplacements(Replacements, s));
    ReplacementsShape();
    forall i | 0 <= i < |s|
      ensures r[i] == EncodeChar(s[i])
    {
      ApplyReplacementsAt(Replacements, s, i);
    }
    forall i | 0 <= i < |r|
      ensures r[i] as int < 256 && !IsKey(Replacements, r[i])
    {
      EncodeCharCases(s[i]);
    }
  }

  /** encode_str: transliterate with the table, entry by entry, then apply latin-1 replacement. */
  method EncodeStr(s: string) returns (r: string)
    ensures |r| == |s|
    ensures forall i :: 0 <= i < |s| ==> r[i] == EncodeChar(s[i])
    ensures forall i :: 0 <= i < |r| ==> r[i] as int < 256 && !IsKey(Replacements, r[i])
  {
    var t := s;
    var k := 0;
    while k < |Replacements|
      invariant 0 <= k <= |Replacements|
      invariant ApplyReplacements(Replacements[k..], t) == ApplyReplacements(Replacements, s)
    {
      assert Replacements[k..][1..] == Replacements[k + 1..];
      t := ReplaceChar(t, Replacements[k].0, Replacements[k].1);
      k := k + 1;
    }
    assert Replacements[k..] == [];
    r := Latin1Replace(t);
    EncodeAt(s);
  }
}
