/** The handful of lodash-style helpers the library ships itself. */
module LiteLodash {
  import opened Wrappers
  import opened Js

  /** `arr[arr.length - 1]`: the final element, `undefined` (None) when empty. */
  function Last<T>(arr: seq<T>): (r: Option<T>)
    ensures r.None? <==> arr == []
    ensures r.Some? ==> r.value == arr[|arr| - 1]
  {
    if |arr| == 0 then None else Some(arr[|arr| - 1])
  }

  /** Appending an element makes it the last one, whatever came before. */
  lemma {:induction false} LastOfAppend<T>(arr: seq<T>, x: T)
    ensures Last(arr + [x]) == Some(x)
    ensures Last([x] + arr) == if arr == [] then Some(x) else Last(arr)
  {
  }

  /** `typeof obj === 'string'`: holds exactly for string values. */
  predicate IsString(obj: Value)
    ensures IsString(obj) <==> exists s :: obj == Str(s)
  {
    assert obj.Str? ==> obj == Str(obj.s);
    obj.Str?
  }

  /** `typeof obj === 'function'`: holds exactly for function values. */
  predicate IsFunction(obj: Value)
    ensures IsFunction(obj) <==> exists id :: obj == Func(id)
  {
    assert obj.Func? ==> obj == Func(obj.id);
    obj.Func?
  }

  /**
   * The regular expression `/^https?:\/\//` applied at the start of `path`:
   * `http`, an optional `s`, then `://`. It accepts exactly the paths that
   * begin with `http://` or `https://`.
   */
  predicate IsRemoteFile(path: string)
    ensures IsRemoteFile(path) <==> "http://" <= path || "https://" <= path
  {
    var matches := |path| >= 7 && path[..4] == "http" &&
      var rest := if path[4] == 's' then path[5..] else path[4..];
      |rest| >= 3 && rest[..3] == "://";
    assert matches <==> "http://" <= path || "https://" <= path by {
      if "http://" <= path {
        assert path[..7] == "http://";
        assert path[..4] == "http";
        assert path[4..][..3] == "://";
      }
      if "https://" <= path {
        assert path[..8] == "https://";
        assert path[..4] == "http";
        assert path[5..][..3] == "://";
      }
      if matches {
        if path[4] == 's' {
          assert path[..8] == path[..4] + [path[4]] + path[5..][..3];
        } else {
          assert path[..7] == path[..4] + path[4..][..3];
        }
      }
    }
    matches
  }

  /** The test is anchored and case-sensitive, and other schemes are refused. */
  lemma {:induction false} IsRemoteFileExamples()
    ensures IsRemoteFile("http://x") && IsRemoteFile("https://x")
    ensures !IsRemoteFile(" http://x") && !IsRemoteFile("HTTP://x") && !IsRemoteFile("ftp://x")
    ensures !IsRemoteFile("http:/x") && !IsRemoteFile("httpss://x")
  {
    assert "http://" <= "http://x";
    assert "https://" <= "https://x";
    assert " http://x"[0] == ' ';
    assert "HTTP://x"[0] == 'H';
    assert "ftp://x"[0] == 'f';
    assert "http:/x"[6] == 'x';
    assert "httpss://x"[5] == 's';
  }
}
