/** Properties of `ensureServerBlock`, the helper that creates a missing `server: {` block. */
module ServerBlockProps {
  import opened Wrappers
  import opened Text
  import opened Edits
  import opened VitePatch

  /** The layout of a text with `ServerBlock` inserted at `a`. */
  lemma ServerBlockAt(s: string, a: nat)
    requires a <= |s|
    ensures var t := InsertAt(s, a, ServerBlock);
      |ServerBlock| == 17 && |t| == |s| + 17 &&
      t[a + 3..a + 9] == "server" && t[a + 9] == ':' && t[a + 10] == ' ' && t[a + 11] == '{' &&
      t[a + 12] == '\n' && t[a + 13] == ' ' && t[a + 14] == ' ' && t[a + 15] == '}' && t[a + 16] == ',' &&
      (forall r :: a <= r < a + 17 && t[r] == '{' ==> r == a + 11)
  {
    var t := InsertAt(s, a, ServerBlock);
    assert t[a..a + 17] == ServerBlock;
    forall r | a <= r < a + 17
      ensures t[r] == ServerBlock[r - a]
    {
      assert t[a..a + 17][r - a] == t[r];
    }
    assert t[a + 3..a + 9] == ServerBlock[3..9];
  }

  /** The `server: {` inside an inserted block matches. */
  lemma ServerBlockMatches(s: string, a: nat)
    requires a <= |s|
    ensures MatchAt(InsertAt(s, a, ServerBlock), a + 3, ServerOpen) == Some(a + 12)
  {
    ServerBlockAt(s, a);
    LitAtomSpaceAtom(InsertAt(s, a, ServerBlock), a + 3, "server", Is(':'), Is('{'));
  }

  /**
   * After `ensureServerBlock` a `server: {` exists exactly when one existed,
   * or `defineConfig({` or `export default {` gave it a place.
   */
  lemma EnsureServerBlockAnchors(s: string)
    ensures Find(EnsureServerBlock(s), ServerOpen).Some? <==>
              Find(s, ServerOpen).Some? || Find(s, DefineConfigOpen).Some? || Find(s, ExportDefaultOpen).Some?
  {
    if Find(s, ServerOpen).None? {
      match Find(s, DefineConfigOpen)
      case Some(sp) =>
        ServerBlockMatches(s, sp.end);
      case None =>
        if Find(s, ExportDefaultOpen).Some? {
          ServerBlockMatches(s, Find(s, ExportDefaultOpen).value.end);
        }
    }
  }

  /** `ensureServerBlock` changes the text at most once: applied to its own result it does nothing. */
  lemma EnsureServerBlockIdempotent(s: string)
    ensures EnsureServerBlock(EnsureServerBlock(s)) == EnsureServerBlock(s)
  {
    EnsureServerBlockAnchors(s);
  }

  /**
   * When `ensureServerBlock` changes the text it only inserts the empty block,
   * right after the `{` of the first `defineConfig({` or `export default {`.
   */
  lemma EnsureServerBlockInserts(s: string)
    requires EnsureServerBlock(s) != s
    ensures Find(s, ServerOpen).None? && (Find(s, DefineConfigOpen).Some? || Find(s, ExportDefaultOpen).Some?)
    ensures var a := BlockAnchor(s);
      0 < a <= |s| && s[a - 1] == '{' && EnsureServerBlock(s) == InsertAt(s, a, ServerBlock)
  {
    if Find(s, DefineConfigOpen).Some? {
      EndsOn(s, Find(s, DefineConfigOpen).value.start, DefineConfigOpen, '{');
    } else {
      EndsOn(s, Find(s, ExportDefaultOpen).value.start, ExportDefaultOpen, '{');
    }
  }

  /**
   * Where `ensureServerBlock` puts a missing block: the end of the first
   * `defineConfig({`, or failing that of the first `export default {`.
   */
  function BlockAnchor(s: string): nat
    requires Find(s, DefineConfigOpen).Some? || Find(s, ExportDefaultOpen).Some?
  {
    if Find(s, DefineConfigOpen).Some? then Find(s, DefineConfigOpen).value.end
    else Find(s, ExportDefaultOpen).value.end
  }

  /** A match of a pattern whose last atom is the character `c` ends just after a `c`. */
  lemma EndsOn(s: string, q: nat, p: Pattern, c: char)
    requires q <= |s| && p != [] && LastAtom(p) == Is(c) && MatchAt(s, q, p).Some?
    ensures 0 < MatchAt(s, q, p).value <= |s| && s[MatchAt(s, q, p).value - 1] == c
  {
    MatchInterior(s, q, p);
  }
}
