/** What several of the modules share. */
module Common {
  datatype Option<T> = None | Some(value: T)

  /** White space, of the ASCII characters. */
  predicate IsSpace(c: char) {
    c == ' ' || '\t' <= c <= '\r'
  }

  lemma SpaceCodes(c: char)
    ensures IsSpace(c) <==> c as int in [9, 10, 11, 12, 13, 32]
  {
  }

  function TrimStart(line: string): string {
    if line == "" || !IsSpace(line[0]) then line else TrimStart(line[1..])
  }

  /** How often an element occurs. */
  function Occurrences<T(==)>(s: seq<T>, x: T): nat {
    if s == [] then 0 else (if s[0] == x then 1 else 0) + Occurrences(s[1..], x)
  }

  /** One element of a set, in no particular order. */
  method Pick<T>(s: set<T>) returns (x: T)
    requires s != {}
    ensures x in s
  {
    x :| x in s;
  }
}
