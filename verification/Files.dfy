/** C strings and the directory (src/filesystem.c, src/lib.c). */
module Files {
  import opened Layout
  import opened Filesystem

  const MAX_OPEN_FILES := 8
  const RTC_FILE_TYPE := 0
  const DIR_FILE_TYPE := 1
  const NORMAL_FILE_TYPE := 2
  const ELF_HEADER := 0x464C457F

  // ---- Names ----

  /** A C string argument: it ends, or is at least as long as the bytes ever looked at. */
  predicate Terminated(s: seq<byte>, n: nat) { |s| >= n || NUL in s }

  /** The C string in the first `n` bytes of `s`. */
  function CString(s: seq<byte>, n: nat): (r: seq<byte>)
    ensures |r| <= |s| && |r| <= n && NUL !in r && r == s[..|r|]
    ensures |r| == n || |r| == |s| || s[|r|] == NUL
  {
    if n == 0 || s == [] || s[0] == NUL then [] else [s[0]] + CString(s[1..], n - 1)
  }

  /** Two byte strings that agree up to a common end have the same C string. */
  lemma CStringAgree(s: seq<byte>, t: seq<byte>, n: nat, i: nat)
    requires i <= n && i <= |s| && i <= |t| && s[..i] == t[..i] && NUL !in s[..i]
    requires i == n || (i < |s| && i < |t| && (s[i] != t[i] || s[i] == NUL))
    ensures CString(s, n) == CString(t, n) <==> i == n || s[i] == t[i]
    decreases i
  {
  }

  function Signed8(b: byte): int { if b < 0x80 then b else b - 0x100 }

  /** Zero exactly for equal C strings within `n` bytes; otherwise the difference, as signed bytes,
      at the first place where they differ. */
  method Strncmp(s1: seq<byte>, s2: seq<byte>, n: nat) returns (r: int)
    requires Terminated(s1, n) && Terminated(s2, n)
    ensures r == 0 <==> CString(s1, n) == CString(s2, n)
    ensures r != 0 ==>
              exists i :: 0 <= i < n && i < |s1| && i < |s2| && s1[..i] == s2[..i] && NUL !in s1[..i]
                          && r == Signed8(s1[i]) - Signed8(s2[i])
  {
    var i := 0;
    while i < n
      invariant i <= n && i <= |s1| && i <= |s2|
      invariant s1[..i] == s2[..i] && NUL !in s1[..i]
    {
      assert i < |s1| && i < |s2|;
      if s1[i] != s2[i] || s1[i] == NUL {
        CStringAgree(s1, s2, n, i);
        return Signed8(s1[i]) - Signed8(s2[i]);
      }
      i := i + 1;
    }
    CStringAgree(s1, s2, n, n);
    return 0;
  }

  // ---- Directory ----

  /** The entry carries the name asked for. */
  predicate Named(d: Dentry, fname: seq<byte>) {
    CString(fname, FILENAME_SIZE) == CString(d.name, FILENAME_SIZE)
  }

  /** The first entry with the name, looked for from entry `i` on. */
  function Lookup(entries: seq<Dentry>, fname: seq<byte>, i: nat): (r: Option<nat>)
    requires i <= |entries|
    ensures r.None? ==> forall j :: i <= j < |entries| ==> !Named(entries[j], fname)
    ensures r.Some? ==> i <= r.value < |entries| && Named(entries[r.value], fname)
    ensures r.Some? ==> forall j :: i <= j < r.value ==> !Named(entries[j], fname)
    decreases |entries| - i
  {
    if i == |entries| then None
    else if Named(entries[i], fname) then Some(i)
    else Lookup(entries, fname, i + 1)
  }

  method ReadDentryByName(img: Image, fname: seq<byte>) returns (d: Option<Dentry>)
    requires img.Ok() && Terminated(fname, FILENAME_SIZE)
    ensures
      var entries := img.Disk().entries;
      d == match Lookup(entries, fname, 0) case None => None case Some(i) => Some(entries[i])
  {
    ghost var entries := img.Disk().entries;
    for i := 0 to img.NumDentries()
      invariant Lookup(entries, fname, 0) == Lookup(entries, fname, i)
    {
      var entry := img.DentryAt(i);
      assert entry == entries[i];
      var differ := Strncmp(fname, entry.name, FILENAME_SIZE);
      if differ == 0 {
        return Some(entry);
      }
    }
    return None;
  }

  function ReadDentryByIndex(img: Image, i: uint32): (d: Option<Dentry>)
    requires img.Ok()
    ensures d == if i < |img.Disk().entries| then Some(img.Disk().entries[i]) else None
  {
    if i >= img.NumDentries() then None else Some(img.DentryAt(i))
  }

  /** A word without NUL, padded with NULs or not, is its own C string. */
  lemma WordIsCString(word: seq<byte>, padded: seq<byte>)
    requires |word| <= |padded| && |word| <= FILENAME_SIZE && word == padded[..|word|] && NUL !in word
    requires |padded| > |word| ==> |padded| == FILENAME_SIZE && padded[|word|] == NUL
    ensures CString(padded, FILENAME_SIZE) == word
  {
    forall i | 0 <= i < |word|
      ensures padded[i] == word[i] != NUL
    {
    }
  }

  lemma {:induction false} SameLookup(entries: seq<Dentry>, a: seq<byte>, b: seq<byte>, i: nat)
    requires i <= |entries| && CString(a, FILENAME_SIZE) == CString(b, FILENAME_SIZE)
    ensures Lookup(entries, a, i) == Lookup(entries, b, i)
    decreases |entries| - i
  {
    if i < |entries| {
      SameLookup(entries, a, b, i + 1);
    }
  }

  /** Directory agreement: looking up the name of an entry finds that entry exactly when no
      earlier entry has the same name; otherwise it finds an earlier one. */
  lemma LookupFindsEntry(disk: Disk, i: nat)
    requires disk.Ok() && i < |disk.entries|
    ensures
      var name := disk.entries[i].name;
      var found := Lookup(disk.entries, name, 0);
      && found.Some? && found.value <= i && Named(disk.entries[found.value], name)
      && (found.value == i <==> forall j :: 0 <= j < i ==> !Named(disk.entries[j], name))
  {
  }
}
