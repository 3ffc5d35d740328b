/** The text handling `monitor_files` applies to a JSON file before decoding it:
    Python's `str.strip()`, then the bracket repair that turns a partially
    written stream of records (`{...},{...},`) into one array literal. */
module Text {
  import opened Common

  /** Python's `str.isspace()`: the characters `str.strip()` removes. */
  predicate IsSpace(c: char) {
    || ('\t' <= c <= '\r')                      // \t \n \v \f \r
    || ('\U{1C}' <= c <= ' ')                   // \x1c .. \x1f and the space
    || c == '\U{85}' || c == '\U{A0}' || c == '\U{1680}'
    || ('\U{2000}' <= c <= '\U{200A}')
    || c == '\U{2028}' || c == '\U{2029}' || c == '\U{202F}' || c == '\U{205F}' || c == '\U{3000}'
  }

  /** Length of the longest prefix of `s` made of whitespace. */
  function LeadingSpace(s: string): (n: nat)
    ensures n <= |s|
    ensures forall i :: 0 <= i < n ==> IsSpace(s[i])
    ensures n < |s| ==> !IsSpace(s[n])
  {
    if s == [] || !IsSpace(s[0]) then 0 else 1 + LeadingSpace(s[1..])
  }

  /** Length of the longest suffix of `s` made of whitespace. */
  function TrailingSpace(s: string): (n: nat)
    ensures n <= |s|
    ensures forall i :: |s| - n <= i < |s| ==> IsSpace(s[i])
    ensures n < |s| ==> !IsSpace(s[|s| - n - 1])
  {
    if s == [] || !IsSpace(s[|s| - 1]) then 0 else 1 + TrailingSpace(s[..|s| - 1])
  }

  /** `s.strip()`: `s` without its leading and trailing whitespace. */
  function Strip(s: string): (r: string)
    ensures exists i, j ::
              && 0 <= i <= j <= |s| && r == s[i..j]
              && (forall k :: 0 <= k < i ==> IsSpace(s[k]))
              && (forall k :: j <= k < |s| ==> IsSpace(s[k]))
    ensures r != [] ==> !IsSpace(r[0]) && !IsSpace(r[|r| - 1])
  {
    var a := LeadingSpace(s);
    var rest := s[a..];
    var b := TrailingSpace(rest);
    assert rest[..|rest| - b] == s[a..|s| - b];
    rest[..|rest| - b]
  }

  /** Text with no whitespace at either end is left alone by `strip()`. */
  lemma StripTrimmed(s: string)
    requires s != [] ==> !IsSpace(s[0]) && !IsSpace(s[|s| - 1])
    ensures Strip(s) == s
  {
  }

  /** Stripping twice is stripping once. */
  lemma StripIdempotent(s: string)
    ensures Strip(Strip(s)) == Strip(s)
  {
    StripTrimmed(Strip(s));
  }

  predicate Bracketed(s: string) {
    |s| >= 2 && s[0] == '[' && s[|s| - 1] == ']'
  }

  /** The repair of lines 156-159 (and 181-184): a trailing comma is dropped and
      the text wrapped in brackets; text that is not already an array literal
      is wrapped; an array literal passes unchanged. */
  function Repair(s: string): (r: string)
    ensures Bracketed(r)
    ensures Bracketed(s) ==> r == s
    ensures s != [] && s[|s| - 1] == ',' ==> r == "[" + s[..|s| - 1] + "]"
    ensures !Bracketed(s) && (s == [] || s[|s| - 1] != ',') ==> r == "[" + s + "]"
  {
    if s != [] && s[|s| - 1] == ',' then "[" + s[..|s| - 1] + "]"
    else if !(s != [] && s[0] == '[' && s[|s| - 1] == ']') then "[" + s + "]"
    else s
  }

  /** Repairing already repaired text changes nothing. */
  lemma RepairIdempotent(s: string)
    ensures Repair(Repair(s)) == Repair(s)
  {
  }

  /** Inside the brackets of the repaired text is the input, less one trailing comma,
      unless the input was already an array literal. */
  lemma RepairBody(s: string)
    ensures !Bracketed(s) ==>
      var r := Repair(s);
      r[1..|r| - 1] == if s != [] && s[|s| - 1] == ',' then s[..|s| - 1] else s
  {
    var r := Repair(s);
    if !Bracketed(s) {
      if s != [] && s[|s| - 1] == ',' {
        assert r == "[" + s[..|s| - 1] + "]";
      } else {
        assert r == "[" + s + "]";
      }
    }
  }

  /** What one iteration of `monitor_files` hands to `json.loads` for the text read
      from a file: nothing when the stripped text is empty (lines 153-154),
      otherwise the repaired stripped text. */
  function TextForDecoder(content: string): (r: Option<string>)
    ensures r.None? <==> Strip(content) == []
    ensures r.Some? ==> Bracketed(r.value)
    ensures Bracketed(Strip(content)) ==> r == Some(Strip(content))
  {
    var stripped := Strip(content);
    if stripped == [] then None else Some(Repair(stripped))
  }
}
