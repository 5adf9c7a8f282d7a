/** The two validators of storage keys: the native one, character by character, and the
    reconciliation script's, on the split. */
module StorageKeys {
  import opened Bytes
  import opened Paths
  import opened Text

  const NUL := '\0'
  const BUFFER := 4096

  /** Every component of the key names an entry. */
  predicate Accepted(key: string) {
    forall part :: part in Split(key, '/') ==> Plain(part)
  }

  /** What the native functions take as a key: it fits the buffer and has no character that would
      end it early. */
  predicate FitsBuffer(key: string) {
    0 < |key| < BUFFER && NUL !in key
  }

  /** One to 4095 characters and no terminator among them. */
  lemma BufferedKeys(key: string)
    ensures FitsBuffer(key) <==> 1 <= |key| <= 4095 && forall c :: c in key ==> c != '\0'
  {
  }

  /** No component is empty, or made of dots that lead nowhere or upwards. */
  lemma AcceptedKeys(key: string)
    ensures Accepted(key) <==> "" !in Split(key, '/') && "." !in Split(key, '/') && ".." !in Split(key, '/')
  {
  }

  /** The test of one component, `n` characters from `p`. */
  predicate BadPart(key: string, p: nat, n: nat)
    requires p + n <= |key|
  {
    n == 0 || (n == 1 && key[p] == '.') || (n == 2 && key[p] == '.' && key[p + 1] == '.')
  }

  lemma BadPartIsNotPlain(key: string, p: nat, n: nat)
    requires p + n <= |key|
    ensures BadPart(key, p, n) <==> !Plain(key[p..p + n])
  {
    var part := key[p..p + n];
    assert n >= 1 ==> part[0] == key[p];
    assert n >= 2 ==> part[1] == key[p + 1];
    assert n == 1 && key[p] == '.' ==> part == ".";
    assert n == 2 && key[p] == '.' && key[p + 1] == '.' ==> part == "..";
  }

  lemma AllPlain(first: string, rest: seq<string>)
    ensures (forall part :: part in [first] + rest ==> Plain(part)) <==>
      Plain(first) && forall part :: part in rest ==> Plain(part)
  {
    assert forall part :: part in [first] + rest <==> part == first || part in rest;
  }

  /** A key is accepted when its first component is, and what follows the slash, if any. */
  lemma AcceptedByParts(s: string)
    ensures var n := IndexOf(s, '/');
            Accepted(s) <==> Plain(s[..n]) && (n < |s| ==> Accepted(s[n + 1..]))
  {
    var n := IndexOf(s, '/');
    if n < |s| {
      AllPlain(s[..n], Split(s[n + 1..], '/'));
      assert Split(s, '/') == [s[..n]] + Split(s[n + 1..], '/');
    } else {
      assert s[..|s|] == s;
      AllPlain(s, []);
      assert Split(s, '/') == [s] + [];
    }
  }

  /** One turn of the scan: the component at `p`, then what follows its slash. */
  lemma ScanStep(key: string, p: nat)
    requires p <= |key|
    ensures var n := IndexOf(key[p..], '/');
            p + n <= |key|
            && (Accepted(key[p..]) <==> !BadPart(key, p, n) && (p + n < |key| ==> Accepted(key[p + n + 1..])))
  {
    var n := IndexOf(key[p..], '/');
    AcceptedByParts(key[p..]);
    BadPartIsNotPlain(key, p, n);
    assert key[p..][..n] == key[p..p + n];
    if p + n < |key| { assert key[p..][n + 1..] == key[p + n + 1..]; }
  }

  /** The scan of `key_ok`, over a string that its terminator ends. */
  method KeyOk(key: string) returns (ok: bool)
    requires NUL !in key
    ensures ok <==> Accepted(key)
  {
    if key != "" && key[0] == '/' {
      AcceptedByParts(key);
      return false;
    }
    var p := 0;
    assert key[0..] == key;
    while p < |key|
      invariant 0 <= p <= |key|
      invariant Accepted(key) <==> Accepted(key[p..])
      decreases |key| - p
    {
      var n := IndexOf(key[p..], '/');
      ScanStep(key, p);
      if BadPart(key, p, n) { return false; }
      if p + n == |key| { return true; }
      p := p + n + 1;
      if p == |key| {
        ScanStep(key, p);
        return false;
      }
    }
    AcceptedByParts(key[p..]);
    return false;
  }

  /** An accepted key resolves, under any root, to its own components: strictly below the root. */
  lemma AcceptedStaysBelow(root: Path, key: string)
    requires Accepted(key)
    ensures Walk(root, Split(key, '/')) == root + Split(key, '/')
    ensures root < Walk(root, Split(key, '/'))
  {
    WalkPlain(root, Split(key, '/'));
    var below := root + Split(key, '/');
    assert below[..|root|] == root;
  }

  // ---------------------------------------------------------------- the split at the last slash

  /** The text a character buffer holds up to its terminator. */
  function CString(buffer: seq<char>): string {
    buffer[..IndexOf(buffer, NUL)]
  }

  /** `parent`: ends the directory part in place and returns where the leaf starts. */
  method SplitParent(buffer: array<char>, length: nat) returns (slash: Option<nat>, leaf: nat)
    requires length < buffer.Length && buffer[length] == NUL && NUL !in buffer[..length]
    requires Accepted(buffer[..length])
    modifies buffer
    ensures slash.None? ==>
      buffer[..] == old(buffer[..]) && leaf == 0 && Split(old(buffer[..length]), '/') == [old(buffer[..length])]
    ensures slash.Some? ==> slash.value < length && leaf == slash.value + 1
    ensures slash.Some? ==> buffer[..] == old(buffer[..])[slash.value := NUL]
    ensures slash.Some? ==> Accepted(CString(buffer[..]))
    ensures slash.Some? ==>
      Split(old(buffer[..length]), '/') == Split(CString(buffer[..]), '/') + [old(buffer[leaf..length])]
    ensures leaf <= length && Plain(old(buffer[leaf..length]))
  {
    ghost var key := buffer[..length];
    var i := length;
    while i > 0 && buffer[i - 1] != '/'
      invariant 0 <= i <= length
      invariant forall k :: i <= k < length ==> buffer[k] != '/'
    {
      i := i - 1;
    }
    if i == 0 {
      assert '/' !in key;
      SplitSingle(key, '/');
      assert key in Split(key, '/');
      assert buffer[0..length] == key;
      return None, 0;
    }
    slash, leaf := Some(i - 1), i;
    assert buffer[i..length] == key[i..];
    SplitAtLast(key, i);
    PartsAccepted(key, i);
    buffer[i - 1] := NUL;
    IndexOfIs(buffer[..], NUL, i - 1);
    assert CString(buffer[..]) == key[..i - 1];
  }

  lemma SplitAtLast(key: string, leaf: nat)
    requires 0 < leaf <= |key| && key[leaf - 1] == '/'
    requires forall k :: leaf <= k < |key| ==> key[k] != '/'
    ensures Split(key, '/') == Split(key[..leaf - 1], '/') + [key[leaf..]]
  {
    CutFirst(key, '/', leaf - 1);
    SplitConcat(key[..leaf - 1], key[leaf..], '/');
    SplitSingle(key[leaf..], '/');
  }

  lemma PartsAccepted(key: string, leaf: nat)
    requires Accepted(key) && 0 < leaf <= |key|
    requires Split(key, '/') == Split(key[..leaf - 1], '/') + [key[leaf..]]
    ensures Accepted(key[..leaf - 1]) && Plain(key[leaf..])
  {
    assert forall part :: part in Split(key[..leaf - 1], '/') ==> part in Split(key, '/');
    assert key[leaf..] in Split(key, '/');
  }

  // ---------------------------------------------------------------- the reconciliation script

  predicate ReservedFirst(part: string) {
    part == ".tmp" || part == ".homecloud-storage-identity" || StartsWith(part, ".hc-probe-")
      || StartsWith(part, ".restore-")
  }

  /** `validate_storage_path`, check by check. */
  predicate ValidStoragePath(path: string) {
    if path == "" || path == "." || path == "/storage" then false
    else if StartsWith(path, "/") || '\\' in path then false
    else
      var parts := Split(path, '/');
      !((exists part :: part in parts && !Plain(part)) || ReservedFirst(parts[0]) || NUL in path)
  }

  /** The first components the script keeps for itself. */
  lemma ReservedNames(part: string)
    ensures ReservedFirst(part) <==>
            || part in {".tmp", ".homecloud-storage-identity"}
            || (exists rest :: part == ".hc-probe-" + rest) || (exists rest :: part == ".restore-" + rest)
  {
    StartsWithMeans(part, ".hc-probe-");
    StartsWithMeans(part, ".restore-");
  }

  /** The script accepts exactly the native keys that have no backslash and no terminator and do not
      start with a reserved name. */
  lemma ValidatorsAgree(path: string)
    ensures ValidStoragePath(path) <==>
            Accepted(path) && '\\' !in path && NUL !in path && !ReservedFirst(Split(path, '/')[0])
  {
    if path == "" || path == "." {
      SplitSingle(path, '/');
      assert path in Split(path, '/');
    } else if path != "" && path[0] == '/' {
      assert Split(path, '/')[0] == "";
      assert "" in Split(path, '/');
    }
    assert "/storage"[0] == '/';
  }

  /** Whatever the script accepts and the buffer can hold, the native functions accept. */
  lemma ScriptKeysAreNative(path: string)
    requires ValidStoragePath(path) && |path| < BUFFER
    ensures FitsBuffer(path) && Accepted(path)
  {
    ValidatorsAgree(path);
  }
}
