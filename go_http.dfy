/** What the services see of the HTTP client and of `http.NewRequest`. */
module GoHttp {
  import opened Results

  const StatusOK := 200
  const StatusBadRequest := 400
  const StatusNotFound := 404
  const StatusUnprocessableEntity := 422
  const StatusInternalServerError := 500

  /** Outcome of decoding a JSON body into the fields a service reads. */
  datatype Decoding<+T> = Decoded(value: T) | Undecodable(cause: string)

  /** Outcome of reading a whole response body and then decoding it. */
  datatype Reading<+T> = Read(decoding: Decoding<T>) | Unreadable(cause: string)

  /** Outcome of `httpClient.Do`: the transport failed, or a response came back. */
  datatype Exchange<+B> = TransportError(cause: string) | Response(status: int, body: B)

  /** An ASCII control byte as `net/url` counts it. */
  predicate IsControl(c: char)
  {
    c < ' ' || c as int == 0x7F
  }

  /** `url.Parse` cuts the fragment off at the first `#` and rejects a control
      byte anywhere in what comes before it. */
  predicate ControlBeforeFragment(url: string)
    decreases |url|
  {
    url != [] && url[0] != '#' && (IsControl(url[0]) || ControlBeforeFragment(url[1..]))
  }

  const InvalidControlCause := "net/url: invalid control character in URL"

  /** The error `http.NewRequest("GET", url, nil)` returns, if any. */
  function NewRequestError(url: string): (e: Option<string>)
    ensures e.Some? <==> exists i :: 0 <= i < |url| && IsControl(url[i]) && '#' !in url[..i]
  {
    ControlBeforeFragmentAt(url);
    if ControlBeforeFragment(url) then Some(InvalidControlCause) else None
  }

  /** The recursive scan and its reading "some control byte precedes every `#`" agree. */
  lemma {:induction false} ControlBeforeFragmentAt(url: string)
    ensures ControlBeforeFragment(url) <==> exists i :: 0 <= i < |url| && IsControl(url[i]) && '#' !in url[..i]
    decreases |url|
  {
    if url != [] {
      ControlBeforeFragmentAt(url[1..]);
      if ControlBeforeFragment(url) {
        if IsControl(url[0]) {
          assert url[..0] == [];
        } else {
          var j :| 0 <= j < |url[1..]| && IsControl(url[1..][j]) && '#' !in url[1..][..j];
          assert url[..j + 1] == [url[0]] + url[1..][..j];
        }
      } else {
        forall i | 0 <= i < |url| && IsControl(url[i])
          ensures '#' in url[..i]
        {
          if url[0] != '#' {
            assert i > 0;
            assert IsControl(url[1..][i - 1]);
            assert url[..i] == [url[0]] + url[1..][..i - 1];
          } else {
            assert url[..i][0] == '#' by { assert i > 0; }
          }
        }
      }
    }
  }

  /** A URL assembled from pieces without such a control byte has none either. */
  lemma {:induction false} NoControlConcat(a: string, b: string)
    requires !ControlBeforeFragment(a) && !ControlBeforeFragment(b)
    ensures !ControlBeforeFragment(a + b)
    decreases |a|
  {
    if a == [] {
      assert a + b == b;
    } else {
      var s := a + b;
      assert s[0] == a[0] && s[1..] == a[1..] + b;
      if a[0] != '#' {
        NoControlConcat(a[1..], b);
      }
    }
  }

  /** A text with no control byte at all passes the scan. */
  lemma {:induction false} ControlFree(s: string)
    requires forall i | 0 <= i < |s| :: !IsControl(s[i])
    ensures !ControlBeforeFragment(s)
    decreases |s|
  {
    if s != [] {
      assert forall i | 0 <= i < |s[1..]| :: s[1..][i] == s[i + 1];
      ControlFree(s[1..]);
    }
  }
}
