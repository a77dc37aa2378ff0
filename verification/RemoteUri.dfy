/** Remote URIs that carry a file descriptor: printing, parsing, and the bounded set of descriptors
    that have been handed out. */
module RemoteUri {
  import opened SwapTypes

  const FRAGMENT_TAG: char := '#'
  const FD_TAG: char := '='
  const SCHEME_TAG: char := ':'
  const SCHEME: string := "datashare"
  const REMOTE_URI_TAG: string := "fdFromBinder"
  const MAX_URI_SIZE: nat := 128
  const DIGIT_LENGTH_LIMIT: nat := 9
  const EINVAL: int := 22

  // ----- Strings and numbers -----

  /** The first position of a character. */
  function Find(s: string, c: char): (pos: Option<nat>)
    ensures pos.Some? ==> pos.value < |s| && s[pos.value] == c && c !in s[..pos.value]
    ensures pos.None? <==> c !in s
  {
    if s == [] then None
    else if s[0] == c then Some(0)
    else match Find(s[1..], c)
      case None => None
      case Some(n) =>
        assert s[..n + 1] == [s[0]] + s[1..][..n];
        Some(n + 1)
  }

  function Substr(s: string, pos: nat, len: nat): string
    requires pos <= |s|
  {
    if pos + len <= |s| then s[pos..pos + len] else s[pos..]
  }

  predicate IsDigit(c: char) {
    '0' <= c <= '9'
  }

  ghost predicate AllDigits(s: string) {
    forall i :: 0 <= i < |s| ==> IsDigit(s[i])
  }

  function DigitChar(d: nat): char
    requires d < 10
  {
    '0' + d as char
  }

  function ToString(n: nat): (s: string)
    ensures |s| > 0
  {
    if n < 10 then [DigitChar(n)] else ToString(n / 10) + [DigitChar(n % 10)]
  }

  /** The number that a string of digits denotes. */
  function ToNumber(s: string): nat
    requires AllDigits(s)
  {
    if s == [] then 0 else ToNumber(s[..|s| - 1]) * 10 + (s[|s| - 1] as nat - '0' as nat)
  }

  function Power10(n: nat): (p: nat)
    ensures p > 0
  {
    if n == 0 then 1 else 10 * Power10(n - 1)
  }

  lemma {:induction false} NumberRoundTrip(n: nat)
    ensures AllDigits(ToString(n)) && ToNumber(ToString(n)) == n
  {
    if n >= 10 {
      NumberRoundTrip(n / 10);
      var s := ToString(n);
      assert s[..|s| - 1] == ToString(n / 10);
    } else {
      assert ToString(n)[..0] == [];
    }
  }

  /** A number below a power of ten has at most that many digits, and no other number has. */
  lemma {:induction false} DigitCount(n: nat, digits: nat)
    requires digits > 0
    ensures |ToString(n)| <= digits <==> n < Power10(digits)
    decreases digits
  {
    assert Power10(digits) == 10 * Power10(digits - 1);
    if n >= 10 && digits > 1 {
      DigitCount(n / 10, digits - 1);
    } else if n >= 10 {
      assert Power10(1) == 10 * Power10(0);
      assert |ToString(n / 10)| > 0;
    }
  }

  // ----- Printing and parsing -----

  function UriOf(pkgName: string, fd: nat): string {
    SCHEME + ":///" + pkgName + "/" + [FRAGMENT_TAG] + REMOTE_URI_TAG + [FD_TAG] + ToString(fd)
  }

  /** What a string is as a remote URI; only a proper descriptor is taken back from the set. */
  datatype Parsed = NotRemote | NoDescriptor | Descriptor(fd: int)

  function Parse(path: string, readOnly: bool): Parsed {
    var posDatashare, posFragment, posFd := Find(path, SCHEME_TAG), Find(path, FRAGMENT_TAG), Find(path, FD_TAG);
    if posDatashare.None? || posFragment.None? || posFd.None? then NotRemote
    else if path[..posDatashare.value] != SCHEME then NotRemote
    else if Substr(path, posFragment.value + 1, |REMOTE_URI_TAG|) != REMOTE_URI_TAG then NotRemote
    else
      var fdStr := path[posFd.value + 1..];
      if exists i :: 0 <= i < |fdStr| && !IsDigit(fdStr[i]) then NoDescriptor
      else if |fdStr| > DIGIT_LENGTH_LIMIT || |fdStr| < 1 then NotRemote
      else Descriptor(if readOnly then ToNumber(fdStr) else -1)
  }

  lemma {:induction false} FindIn(before: string, c: char, after: string)
    requires c !in before
    ensures Find(before + [c] + after, c) == Some(|before|)
  {
    var s := before + [c] + after;
    assert s[|before|] == c && s[..|before|] == before;
    FindAt(s, c, |before|);
  }

  lemma {:induction false} FindAt(s: string, c: char, n: nat)
    requires n < |s| && s[n] == c && c !in s[..n]
    ensures Find(s, c) == Some(n)
  {
    if n > 0 {
      assert s[..n][0] == s[0];
      assert s[1..][..n - 1] == s[..n][1..];
      FindAt(s[1..], c, n - 1);
    }
  }

  /** Where the tags of a printed URI are. */
  lemma TagPositions(pkgName: string, digits: string)
    requires FRAGMENT_TAG !in pkgName && FD_TAG !in pkgName
    ensures var head := SCHEME + ":///" + pkgName + "/";
      var uri := head + [FRAGMENT_TAG] + REMOTE_URI_TAG + [FD_TAG] + digits;
      && Find(uri, SCHEME_TAG) == Some(|SCHEME|)
      && Find(uri, FRAGMENT_TAG) == Some(|head|)
      && Find(uri, FD_TAG) == Some(|head| + 1 + |REMOTE_URI_TAG|)
  {
    hide Find;
    var head := SCHEME + ":///" + pkgName + "/";
    var uri := head + [FRAGMENT_TAG] + REMOTE_URI_TAG + [FD_TAG] + digits;
    var rest := REMOTE_URI_TAG + [FD_TAG] + digits;
    assert uri == SCHEME + [SCHEME_TAG] + ("///" + pkgName + "/" + [FRAGMENT_TAG] + rest);
    FindIn(SCHEME, SCHEME_TAG, "///" + pkgName + "/" + [FRAGMENT_TAG] + rest);
    assert uri == head + [FRAGMENT_TAG] + rest;
    FindIn(head, FRAGMENT_TAG, rest);
    FindIn(head + [FRAGMENT_TAG] + REMOTE_URI_TAG, FD_TAG, digits);
  }

  /** Parsing what was printed gives the descriptor back exactly if it has at most nine digits;
      otherwise the string is refused. */
  lemma UriRoundTrip(pkgName: string, fd: nat)
    requires FRAGMENT_TAG !in pkgName && FD_TAG !in pkgName
    ensures Parse(UriOf(pkgName, fd), true) ==
            if fd < Power10(DIGIT_LENGTH_LIMIT) then Descriptor(fd) else NotRemote
  {
    hide Find, ToString, ToNumber, Power10;
    var uri, digits := UriOf(pkgName, fd), ToString(fd);
    var head := SCHEME + ":///" + pkgName + "/";
    TagPositions(pkgName, digits);
    assert uri == head + [FRAGMENT_TAG] + REMOTE_URI_TAG + [FD_TAG] + digits;
    assert uri[|head| + 1 + |REMOTE_URI_TAG| + 1..] == digits;
    assert uri[..|SCHEME|] == SCHEME;
    assert uri[|head| + 1..|head| + 1 + |REMOTE_URI_TAG|] == REMOTE_URI_TAG;
    NumberRoundTrip(fd);
    DigitCount(fd, DIGIT_LENGTH_LIMIT);
  }

  /** With any other open mode a printed URI is still recognised, but without its descriptor. */
  lemma OtherModesHideDescriptor(path: string)
    ensures Parse(path, false) == match Parse(path, true)
                                  case Descriptor(_) => Descriptor(-1)
                                  case other => other
  {
  }

  class RemoteUris {
    var fdFromBinder: set<int>

    ghost predicate Valid()
      reads this
    {
      |fdFromBinder| <= MAX_URI_SIZE
    }

    constructor ()
      ensures Valid() && fdFromBinder == {}
    {
      fdFromBinder := {};
    }

    method IsAllDigits(fdStr: string) returns (all: bool)
      ensures all <==> AllDigits(fdStr)
    {
      for i := 0 to |fdStr|
        invariant forall j :: 0 <= j < i ==> IsDigit(fdStr[j])
      {
        if !IsDigit(fdStr[i]) {
          return false;
        }
      }
      return true;
    }

    method RemoveFd(fd: int)
      requires Valid()
      modifies this
      ensures Valid() && fdFromBinder == old(fdFromBinder) - {fd}
    {
      if fd in fdFromBinder {
        fdFromBinder := fdFromBinder - {fd};
      }
    }

    /** `fd0` is what the caller's variable holds before the call. */
    method IsRemoteUri(path: string, fd0: int, readOnly: bool) returns (remote: bool, fd: int)
      requires Valid()
      modifies this
      ensures Valid()
      ensures match Parse(path, readOnly)
        case NotRemote => !remote && fd == fd0 && fdFromBinder == old(fdFromBinder)
        case NoDescriptor => remote && fd == -1 && fdFromBinder == old(fdFromBinder)
        case Descriptor(n) => remote && fd == n && fdFromBinder == old(fdFromBinder) - {n}
    {
      remote, fd := false, fd0;
      var posDatashare, posFragment, posFd := Find(path, SCHEME_TAG), Find(path, FRAGMENT_TAG), Find(path, FD_TAG);
      if posDatashare.None? || posFragment.None? || posFd.None? {
        return;
      }
      if path[..posDatashare.value] != SCHEME {
        return;
      }
      if Substr(path, posFragment.value + 1, |REMOTE_URI_TAG|) == REMOTE_URI_TAG {
        var fdStr := path[posFd.value + 1..];
        var digits := IsAllDigits(fdStr);
        if digits {
          if |fdStr| > DIGIT_LENGTH_LIMIT || |fdStr| < 1 {
            return;
          }
          fd := ToNumber(fdStr);
          if fd < 0 || !readOnly {
            fd := -1;
          }
          RemoveFd(fd);
          return true, fd;
        }
        return true, -1;
      }
    }

    /** A full set first gives up its smallest descriptor. */
    method ConvertUri(fd: int, pkgName: string, uri0: string) returns (ret: int, remoteUri: string)
      requires Valid()
      modifies this
      ensures Valid()
      ensures fd < 0 ==> ret == -EINVAL && remoteUri == uri0 && fdFromBinder == old(fdFromBinder)
      ensures fd >= 0 ==> ret == 0 && remoteUri == UriOf(pkgName, fd) && fd in fdFromBinder
      ensures fd >= 0 && |old(fdFromBinder)| < MAX_URI_SIZE ==> fdFromBinder == old(fdFromBinder) + {fd}
      ensures fd >= 0 && |old(fdFromBinder)| == MAX_URI_SIZE ==>
                exists least :: least in old(fdFromBinder) && (forall f :: f in old(fdFromBinder) ==> least <= f)
                                && fdFromBinder == old(fdFromBinder) - {least} + {fd}
    {
      if fd < 0 {
        return -EINVAL, uri0;
      }
      if |fdFromBinder| == MAX_URI_SIZE {
        var least := Least(fdFromBinder);
        fdFromBinder := fdFromBinder - {least};
      }
      fdFromBinder := fdFromBinder + {fd};
      return 0, UriOf(pkgName, fd);
    }
  }

  lemma {:induction false} LeastExists(s: set<int>) returns (least: int)
    requires |s| > 0
    ensures least in s && forall f :: f in s ==> least <= f
    decreases |s|
  {
    assert (forall f :: f !in s) ==> s == {};
    least :| least in s;
    if |s - {least}| > 0 {
      var other := LeastExists(s - {least});
      assert forall f :: f in s ==> f == least || f in s - {least};
      if other < least {
        least := other;
      }
    } else {
      assert s == {least};
    }
  }

  method Least(s: set<int>) returns (least: int)
    requires |s| > 0
    ensures least in s && forall f :: f in s ==> least <= f
  {
    ghost var some := LeastExists(s);
    least :| least in s && forall f :: f in s ==> least <= f;
  }
}
