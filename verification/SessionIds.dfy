/** Identifiers of sessions, shared by the command line and the session listing. */
module SessionIds {
  import opened Output

  predicate IdChar(c: char)
  {
    || 'a' <= c <= 'z' || 'A' <= c <= 'Z' || '0' <= c <= '9' || c == '-' || c == '_' || c == '.' || c == ':'
  }

  predicate ValidId(id: string)
  {
    id != [] && Bytes(id) <= 128 && forall i :: 0 <= i < |id| ==> IdChar(id[i])
  }
}
