/** Path text: what the file reader and the runtime validator each check of it. */
module ConfigPaths {
  const PATH_TEXT: nat := 256

  predicate IsPathChar(c: char) {
    '0' <= c <= '9' || 'A' <= c <= 'Z' || 'a' <= c <= 'z' || c == '/' || c == '.' || c == '_' || c == '-'
  }

  /** Two dots stand between two separators, or between one and an end of the text. */
  predicate ParentAt(s: string, i: nat) {
    i + 2 <= |s| && s[i] == '.' && s[i + 1] == '.' && (i == 0 || s[i - 1] == '/') && (i + 2 == |s| || s[i + 2] == '/')
  }

  predicate HasParent(s: string) {
    exists i: nat :: i < |s| && ParentAt(s, i)
  }

  predicate DoubleSlashAt(s: string, i: nat) {
    0 < i < |s| && s[i] == '/' && s[i - 1] == '/'
  }

  /** An absolute path without a way up, an empty component or an odd character. */
  predicate SafePath(s: string) {
    && s != "" && s[0] == '/' && s[|s| - 1] != '/' && !HasParent(s)
    && forall i: nat :: i < |s| ==> IsPathChar(s[i]) && !DoubleSlashAt(s, i)
  }

  predicate HasPxfExtension(s: string) {
    |s| > 4 && s[|s| - 4..] == ".pxf"
  }

  /** The component loop finds a parent component exactly when there is one. */
  method FindParent(s: string) returns (found: bool)
    ensures found <==> HasParent(s)
  {
    var start := 0;
    for i := 0 to |s| + 1
      invariant 0 <= start <= i
      invariant 0 < start <= |s| ==> s[start - 1] == '/'
      invariant forall k :: start <= k < i && k < |s| ==> s[k] != '/'
      invariant i == |s| + 1 ==> start == i
      invariant forall k: nat :: k < start && k < |s| ==> !ParentAt(s, k)
    {
      if i == |s| || s[i] == '/' {
        if i - start == 2 && s[start] == '.' && s[start + 1] == '.' {
          assert ParentAt(s, start);
          return true;
        }
        forall k: nat | start <= k <= i && k < |s| ensures !ParentAt(s, k) {
          if k > start && k < i {
            assert s[k - 1] != '/';
          }
        }
        start := i + 1;
      }
    }
    return false;
  }

  /** The runtime's check of a key path. */
  method PathIsSafe(s: string, allowEmpty: bool) returns (ok: bool)
    ensures ok <==> |s| < PATH_TEXT && (if s == "" then allowEmpty else SafePath(s))
  {
    if |s| >= PATH_TEXT {
      return false;
    }
    if s == "" {
      return allowEmpty;
    }
    if s[0] != '/' || s[|s| - 1] == '/' {
      return false;
    }
    var parent := FindParent(s);
    if parent {
      return false;
    }
    for i := 0 to |s|
      invariant forall k: nat :: k < i ==> IsPathChar(s[k]) && !DoubleSlashAt(s, k)
    {
      if !IsPathChar(s[i]) || (s[i] == '/' && i > 0 && s[i - 1] == '/') {
        assert DoubleSlashAt(s, i) || !IsPathChar(s[i]);
        return false;
      }
    }
    return true;
  }
}
