/** The records the note app keeps in memory and on disk, and the
    JavaScript `String.prototype.trim` that validates user-typed names. */
module Entities {

  datatype Option<+T> = None | Some(value: T)

  /** Milliseconds since the epoch; the app stores ISO-8601 strings, which
      `new Date(...)` turns back into these numbers before comparing. */
  type Timestamp = int

  /** A note record, as stored in `notes/<id>.json`. `folderId` is `null`
      (None) for a note that belongs to no folder. */
  datatype Note = Note(
    id: string,
    title: string,
    content: string,
    createdAt: Timestamp,
    updatedAt: Timestamp,
    folderId: Option<string>)

  /** A folder record, as stored in `folders.json`. The `notes` list is
      created empty and never written again: membership lives on the note. */
  datatype Folder = Folder(id: string, name: string, notes: seq<string>)

  /** The title every new note starts with. */
  const UntitledNote: string := "Untitled Note"

  /** `value || null` and `!value` in JavaScript: null and the empty string
      are both falsy. */
  predicate IsUnassigned(n: Note) {
    n.folderId == None || n.folderId == Some("")
  }

  function UpdatedAt(n: Note): Timestamp {
    n.updatedAt
  }

  /** The characters `trim` removes: ECMAScript WhiteSpace (tab, vertical
      tab, form feed, the byte-order mark and every Zs space separator) and
      LineTerminator (line feed, carriage return, U+2028, U+2029). */
  predicate IsWhitespace(c: char) {
    || c == '\t' || c == '\n' || c == '\U{000B}' || c == '\U{000C}' || c == '\r'
    || c == ' ' || c == '\U{00A0}' || c == '\U{1680}'
    || ('\U{2000}' <= c <= '\U{200A}')
    || c == '\U{2028}' || c == '\U{2029}' || c == '\U{202F}' || c == '\U{205F}'
    || c == '\U{3000}' || c == '\U{FEFF}'
  }

  predicate AllWhitespace(s: string) {
    forall j :: 0 <= j < |s| ==> IsWhitespace(s[j])
  }

  /** Length of the leading run of whitespace. */
  function LeadingSpace(s: string): (k: nat)
    ensures k <= |s|
    ensures forall j :: 0 <= j < k ==> IsWhitespace(s[j])
    ensures k < |s| ==> !IsWhitespace(s[k])
  {
    if |s| == 0 || !IsWhitespace(s[0]) then 0 else 1 + LeadingSpace(s[1..])
  }

  /** Index just past the last non-whitespace character (0 if there is none). */
  function TrailingStart(s: string): (k: nat)
    ensures k <= |s|
    ensures forall j :: k <= j < |s| ==> IsWhitespace(s[j])
    ensures k > 0 ==> !IsWhitespace(s[k - 1])
  {
    if |s| == 0 || !IsWhitespace(s[|s| - 1]) then |s| else TrailingStart(s[..|s| - 1])
  }

  /** `s.trim()`: `s` with its leading and trailing whitespace removed. */
  function Trim(s: string): (r: string)
    ensures r == "" <==> AllWhitespace(s)
    ensures |r| > 0 ==> !IsWhitespace(r[0]) && !IsWhitespace(r[|r| - 1])
    ensures exists a, b :: s == a + r + b && AllWhitespace(a) && AllWhitespace(b)
  {
    var lo, hi := LeadingSpace(s), TrailingStart(s);
    TrimBounds(s, lo, hi);
    if hi <= lo then "" else s[lo..hi]
  }

  /** The facts `Trim` rests on, for any whitespace prefix `s[..lo]` and
      whitespace suffix `s[hi..]` that stop at a non-whitespace character. */
  lemma TrimBounds(s: string, lo: nat, hi: nat)
    requires lo <= |s| && hi <= |s|
    requires forall j :: 0 <= j < lo ==> IsWhitespace(s[j])
    requires lo < |s| ==> !IsWhitespace(s[lo])
    requires forall j :: hi <= j < |s| ==> IsWhitespace(s[j])
    requires hi > 0 ==> !IsWhitespace(s[hi - 1])
    ensures var r := if hi <= lo then "" else s[lo..hi];
      && (r == "" <==> AllWhitespace(s))
      && (|r| > 0 ==> !IsWhitespace(r[0]) && !IsWhitespace(r[|r| - 1]))
      && (exists a, b :: s == a + r + b && AllWhitespace(a) && AllWhitespace(b))
  {
    if hi <= lo {
      assert AllWhitespace(s);
      assert s == s + "" + "" && AllWhitespace("");
    } else {
      assert !IsWhitespace(s[lo]);
      assert s[lo..hi][0] == s[lo] && s[lo..hi][hi - lo - 1] == s[hi - 1];
      forall j | 0 <= j < lo ensures IsWhitespace(s[..lo][j]) { assert s[..lo][j] == s[j]; }
      forall j | 0 <= j < |s| - hi ensures IsWhitespace(s[hi..][j]) { assert s[hi..][j] == s[hi + j]; }
      assert AllWhitespace(s[..lo]) && AllWhitespace(s[hi..]);
      assert s == s[..lo] + s[lo..hi] + s[hi..];
    }
  }

  /** A string with no whitespace at either end is its own trim. */
  lemma TrimOfTrimmed(s: string)
    requires |s| > 0 && !IsWhitespace(s[0]) && !IsWhitespace(s[|s| - 1])
    ensures Trim(s) == s
  {
  }

  /** Trimming twice is trimming once. */
  lemma {:induction false} TrimIdempotent(s: string)
    ensures Trim(Trim(s)) == Trim(s)
  {
    var r := Trim(s);
    if |r| > 0 {
      TrimOfTrimmed(r);
    }
  }

  /** A trimmed name is accepted by `if (name)` exactly when the raw input
      held a character that is not whitespace. */
  lemma {:induction false} TrimmedNonEmpty(s: string)
    ensures Trim(s) != "" <==> exists j :: 0 <= j < |s| && !IsWhitespace(s[j])
  {
  }
}
