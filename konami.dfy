/** The Konami-code easter egg of the "Beyond Code" page
    (src/pages/BeyondCode.tsx): every key press is appended to a buffer cut
    down to its last ten keys, and a latch opens the first time the buffer,
    joined with commas, equals the code joined with commas. */
module BeyondCode {
  import opened Sequences

  /** Up, up, down, down, left, right, left, right, b, a. */
  const KonamiSequence: seq<string> :=
    ["ArrowUp", "ArrowUp", "ArrowDown", "ArrowDown", "ArrowLeft", "ArrowRight", "ArrowLeft", "ArrowRight", "b", "a"]

  /** `xs.join(',')`. */
  function Join(xs: seq<string>): string
  {
    if |xs| == 0 then ""
    else if |xs| == 1 then xs[0]
    else xs[0] + "," + Join(xs[1..])
  }

  /** The test the key handler applies to the new buffer. */
  predicate WindowMatches(window: seq<string>)
  {
    Join(window) == Join(KonamiSequence)
  }

  /** The `key` values a keyboard reports: either the comma key itself or a
      key name without a comma ("a", "ArrowUp", "Enter", ...). */
  predicate IsKeyName(k: string)
  {
    k == "," || ',' !in k
  }

  predicate AllKeyNames(keys: seq<string>)
  {
    forall i :: 0 <= i < |keys| ==> IsKeyName(keys[i])
  }

  /** The last ten keys of `history` are the code, ending at press `n`. */
  predicate CodeEndsAt(history: seq<string>, n: int)
  {
    |KonamiSequence| <= n <= |history| && history[n - |KonamiSequence|..n] == KonamiSequence
  }

  /** The latch after the presses `history`: some press left a buffer that
      passed the comma-joined comparison. */
  ghost predicate Unlocked(history: seq<string>)
    decreases |history|
  {
    |history| > 0 &&
    (Unlocked(history[..|history| - 1]) || WindowMatches(LastN(history, |KonamiSequence|)))
  }

  /** The state of the page's key handler: the `konamiCode` buffer and the
      `showSecret` flag; `history` is every key pressed so far. */
  class KonamiDetector {
    var konamiCode: seq<string>
    var showSecret: bool
    ghost var history: seq<string>

    ghost predicate Valid()
      reads this
    {
      konamiCode == LastN(history, |KonamiSequence|) && showSecret == Unlocked(history)
    }

    /** Both pieces of state start empty / false. */
    constructor ()
      ensures Valid() && history == [] && konamiCode == [] && !showSecret
    {
      konamiCode := [];
      showSecret := false;
      history := [];
    }

    /** The keydown handler. */
    method HandleKeyPress(key: string)
      requires Valid()
      modifies this
      ensures Valid()
      ensures history == old(history) + [key]
      ensures konamiCode == LastN(old(konamiCode) + [key], |KonamiSequence|)
      ensures |konamiCode| <= |KonamiSequence| && konamiCode[|konamiCode| - 1] == key
      ensures showSecret == (old(showSecret) || WindowMatches(konamiCode))
    {
      var newCode := LastN(konamiCode + [key], |KonamiSequence|);
      var matched := WindowMatches(newCode);
      PressStep(history, key, newCode, matched);
      konamiCode := newCode;
      history := history + [key];
      // The handler only ever sets the flag, and only when the test passes.
      showSecret := showSecret || matched;
    }
  }

  /** One key press on the state the detector keeps for `history`: the new
      buffer is the last ten keys of the longer history, ends with the key,
      and the latch opens exactly when it was open or the new buffer
      passes the comparison. */
  lemma PressStep(history: seq<string>, key: string, newCode: seq<string>, matched: bool)
    requires newCode == LastN(LastN(history, |KonamiSequence|) + [key], |KonamiSequence|)
    requires matched == WindowMatches(newCode)
    ensures newCode == LastN(history + [key], |KonamiSequence|)
    ensures |newCode| <= |KonamiSequence| && newCode[|newCode| - 1] == key
    ensures Unlocked(history + [key]) == (Unlocked(history) || matched)
  {
    LastNOfLastN(history, key, |KonamiSequence|);
    LastNIsSuffix(history + [key], |KonamiSequence|);
    assert (history + [key])[..|history|] == history;
  }

  /** Cutting the buffer before appending loses nothing: the buffer is always
      the last (at most) ten keys of the whole history. */
  lemma LastNOfLastN(history: seq<string>, key: string, n: nat)
    requires n > 0
    ensures LastN(LastN(history, n) + [key], n) == LastN(history + [key], n)
  {
    var w := LastN(history, n);
    var a, b := LastN(w + [key], n), LastN(history + [key], n);
    LastNIsSuffix(history, n);
    LastNIsSuffix(w + [key], n);
    LastNIsSuffix(history + [key], n);
    forall i | 0 <= i < |a| ensures a[i] == b[i] {
      if i < |a| - 1 {
        assert a[i] == w[|w| + 1 - |a| + i] == history[|history| + 1 - |a| + i];
      }
    }
  }

  /** `s.split(',')`: the pieces between commas. */
  function Split(s: string): (pieces: seq<string>)
    ensures |pieces| >= 1
  {
    if s == [] then [""]
    else
      var rest := Split(s[1..]);
      if s[0] == ',' then [""] + rest else [[s[0]] + rest[0]] + rest[1..]
  }

  /** The pieces of every string of `xs`, one after the other. */
  function SplitAll(xs: seq<string>): seq<string>
  {
    if xs == [] then [] else Split(xs[0]) + SplitAll(xs[1..])
  }

  lemma {:induction false} SplitAppend(a: string, b: string)
    ensures Split(a + "," + b) == Split(a) + Split(b)
  {
    if a == [] {
      assert a + "," + b == [','] + b;
    } else {
      assert (a + "," + b)[1..] == a[1..] + "," + b;
      SplitAppend(a[1..], b);
    }
  }

  lemma {:induction false} SplitJoin(xs: seq<string>)
    requires xs != []
    ensures Split(Join(xs)) == SplitAll(xs)
  {
    if |xs| > 1 {
      SplitAppend(xs[0], Join(xs[1..]));
      SplitJoin(xs[1..]);
    }
  }

  lemma {:induction false} SplitCommaFree(k: string)
    requires ',' !in k
    ensures Split(k) == [k]
  {
    if k != [] {
      SplitCommaFree(k[1..]);
      assert [k[0]] + k[1..] == k;
    }
  }

  /** A list of key names whose comma-separated pieces contain no empty piece
      holds no comma key, so splitting gives the list back. */
  lemma {:induction false} SplitAllOfKeyNames(keys: seq<string>)
    requires AllKeyNames(keys)
    requires "" !in SplitAll(keys)
    ensures SplitAll(keys) == keys
  {
    if keys != [] {
      if keys[0] != "," {
        SplitCommaFree(keys[0]);
        assert "" !in SplitAll(keys[1..]) by {
          assert SplitAll(keys) == [keys[0]] + SplitAll(keys[1..]);
        }
        assert AllKeyNames(keys[1..]) by {
          forall i | 0 <= i < |keys| - 1 ensures IsKeyName(keys[1..][i]) {
            assert keys[1..][i] == keys[i + 1];
          }
        }
        SplitAllOfKeyNames(keys[1..]);
      }
    }
  }

  /** The code's key names are non-empty and free of commas. */
  lemma CodeKeysPlain()
    ensures forall i :: 0 <= i < |KonamiSequence| ==> ',' !in KonamiSequence[i] && KonamiSequence[i] != ""
  {
  }

  /** Splitting the joined code at its commas gives the code back. */
  lemma SplitJoinedCode()
    ensures Split(Join(KonamiSequence)) == KonamiSequence
  {
    CodeKeysPlain();
    SplitJoin(KonamiSequence);
    SplitAllCommaFree(KonamiSequence);
  }

  /** For keys a keyboard can report, the comma-joined comparison is exactly
      the comparison of the key lists. */
  lemma WindowMatchesIffCode(window: seq<string>)
    requires AllKeyNames(window)
    ensures WindowMatches(window) <==> window == KonamiSequence
  {
    if WindowMatches(window) {
      SplitJoinedCode();
      if window != [] {
        SplitJoin(window);
        CodeKeysPlain();
        SplitAllOfKeyNames(window);
      }
    }
  }

  lemma {:induction false} SplitAllCommaFree(xs: seq<string>)
    requires forall i :: 0 <= i < |xs| ==> ',' !in xs[i]
    ensures SplitAll(xs) == xs
  {
    if xs != [] {
      SplitCommaFree(xs[0]);
      SplitAllCommaFree(xs[1..]);
    }
  }

  /** The buffer left by the last press passes the comparison exactly when
      the last ten presses are the code. */
  lemma LastWindowIsCode(h: seq<string>)
    requires AllKeyNames(h)
    ensures WindowMatches(LastN(h, |KonamiSequence|)) <==> CodeEndsAt(h, |h|)
  {
    var w := LastN(h, |KonamiSequence|);
    LastNIsSuffix(h, |KonamiSequence|);
    KeyNamesSuffix(h, |h| - |w|);
    WindowMatchesIffCode(w);
    LastTenAreCode(h);
  }

  /** The last (at most) ten presses are the code exactly when the code ends
      at the last press. */
  lemma LastTenAreCode(h: seq<string>)
    ensures LastN(h, |KonamiSequence|) == KonamiSequence <==> CodeEndsAt(h, |h|)
  {
    if |KonamiSequence| <= |h| {
      LastNWindow(h, |KonamiSequence|);
    }
  }

  /** Every suffix of a list of key names is one. */
  lemma KeyNamesSuffix(h: seq<string>, k: int)
    requires AllKeyNames(h) && 0 <= k <= |h|
    ensures AllKeyNames(h[k..])
  {
    forall i | 0 <= i < |h| - k ensures IsKeyName(h[k..][i]) { assert h[k..][i] == h[k + i]; }
  }

  /** The code ends at press `n` of `h` exactly when it ends there in `h`
      with its last press removed, for every `n` before the last press. */
  lemma CodeEndsBeforeLast(h: seq<string>, n: int)
    requires h != [] && n < |h|
    ensures CodeEndsAt(h, n) <==> CodeEndsAt(h[..|h| - 1], n)
  {
    if |KonamiSequence| <= n {
      assert h[n - |KonamiSequence|..n] == h[..|h| - 1][n - |KonamiSequence|..n];
    }
  }

  /** With keys a keyboard can report, the secret is shown exactly when the
      code was typed as ten consecutive presses somewhere in the history. */
  lemma {:induction false} UnlockedIffCodeSeen(h: seq<string>)
    requires AllKeyNames(h)
    ensures Unlocked(h) <==> exists n :: CodeEndsAt(h, n)
    decreases |h|
  {
    if h != [] {
      var p := h[..|h| - 1];
      assert AllKeyNames(p) by {
        forall i | 0 <= i < |p| ensures IsKeyName(p[i]) { assert p[i] == h[i]; }
      }
      UnlockedIffCodeSeen(p);
      LastWindowIsCode(h);
      forall n | CodeEndsAt(p, n) ensures CodeEndsAt(h, n) {
        CodeEndsBeforeLast(h, n);
      }
      forall n | CodeEndsAt(h, n) && n < |h| ensures CodeEndsAt(p, n) {
        CodeEndsBeforeLast(h, n);
      }
    }
  }

  /** Fewer than ten presses never show the secret. */
  lemma UnlockNeedsTenPresses(h: seq<string>)
    requires AllKeyNames(h)
    requires |h| < |KonamiSequence|
    ensures !Unlocked(h)
  {
    UnlockedIffCodeSeen(h);
  }

  /** Once shown, the secret stays shown whatever is pressed afterwards. */
  lemma {:induction false} UnlockedStaysUnlocked(h: seq<string>, more: seq<string>)
    requires Unlocked(h)
    ensures Unlocked(h + more)
    decreases |more|
  {
    if more != [] {
      var h' := h + more[..|more| - 1];
      UnlockedStaysUnlocked(h, more[..|more| - 1]);
      assert (h + more)[..|h + more| - 1] == h';
      assert Unlocked(h');
    } else {
      assert h + more == h;
    }
  }

  /** Key names are compared case-sensitively: with shift or caps lock held,
      "B" and "A" do not stand in for "b" and "a". */
  lemma ShiftedLettersDoNotMatch()
    ensures !WindowMatches(KonamiSequence[..8] + ["B", "A"])
  {
    var w := KonamiSequence[..8] + ["B", "A"];
    assert AllKeyNames(w);
    WindowMatchesIffCode(w);
    assert w[8] != KonamiSequence[8];
  }

  /** Without the key-name hypothesis the comma-joined comparison is weaker
      than comparing the lists: a single key whose name were the whole
      joined code would pass it. */
  lemma JoinedKeyWouldMatch()
    ensures var x := Join(KonamiSequence); WindowMatches([x]) && [x] != KonamiSequence
  {
  }
}
