/** A book of the blog (`objects/Book.js`, and the `id`/`name` getters
    again in `obj/Book.js`): its identifier and display name, derived
    from its directory, and its posts cut into pages. Loading the posts
    from disk is not modelled: `Posts` takes them in directory order. */
module Books {
  import opened Strings
  import opened Seqs
  import opened Lib
  import opened Pages

  /** `path.sep` on POSIX systems. */
  const SEP := '/'

  /** `pp`: posts per page, twelve rows of three. */
  const PP := 12 * 3

  /** `id`: the last separator-delimited segment of the source path. */
  function Id(src: string): (r: string)
    ensures SEP !in r
  {
    var segments := Split(src, SEP);
    assert segments[|segments| - 1] in segments;
    segments[|segments| - 1]
  }

  /** Splitting a text that ends in a separator and a word gives the
      pieces before it, then the word. */
  lemma {:induction false} SplitSnoc(s: string, c: char, w: string)
    requires c !in w
    ensures Split(s + [c] + w, c) == Split(s, c) + [w]
  {
    if s == [] {
      assert [] + [c] + w == [c] + w;
      assert ([c] + w)[1..] == w;
      SplitFree(w, c);
    } else {
      assert (s + [c] + w)[1..] == s[1..] + [c] + w;
      SplitSnoc(s[1..], c, w);
    }
  }

  /** A book in directory `dir` named `name` has `name` as its id. */
  lemma IdOfDirectory(dir: string, name: string)
    requires SEP !in name
    ensures Id(dir + [SEP] + name) == name
  {
    SplitSnoc(dir, SEP, name);
  }

  /** A word with its first character upper-cased and the rest
      lower-cased; the empty word stays empty. */
  function Capitalize(word: string): (r: string)
    ensures |r| == |word|
    ensures |word| > 0 ==> r[0] == UpperChar(word[0]) && r[1..] == Lower(word[1..])
  {
    if word == [] then [] else [UpperChar(word[0])] + Lower(word[1..])
  }

  function CapitalizeAll(words: seq<string>): (r: seq<string>)
    ensures |r| == |words| && forall i :: 0 <= i < |words| ==> r[i] == Capitalize(words[i])
  {
    seq(|words|, i requires 0 <= i < |words| => Capitalize(words[i]))
  }

  /** `name`: the id's dash-separated words, capitalized, joined by
      spaces. */
  function Name(id: string): string
  {
    Join(CapitalizeAll(Split(id, '-')), " ")
  }

  lemma CapitalizeKeeps(word: string, c: char)
    requires c !in word && LowerChar(c) == c && UpperChar(c) == c && !('A' <= c <= 'Z') && !('a' <= c <= 'z')
    ensures c !in Capitalize(word)
  {
    if word != [] {
      assert word[0] in word;
      var r := Capitalize(word);
      forall i | 0 <= i < |r| ensures r[i] != c {
        if i > 0 {
          assert r[i] == Lower(word[1..])[i - 1] == LowerChar(word[i]);
          assert word[i] in word;
        }
      }
    }
  }

  /** Whatever the id, its name has no dash. */
  lemma NameNoDash(id: string)
    ensures '-' !in Name(id)
  {
    var words := CapitalizeAll(Split(id, '-'));
    forall w | w in words ensures '-' !in w {
      var i :| 0 <= i < |words| && words[i] == w;
      assert Split(id, '-')[i] in Split(id, '-');
      CapitalizeKeeps(Split(id, '-')[i], '-');
    }
    JoinFree(words, " ", '-');
  }

  /** For an id without spaces, the name's space-separated words are the
      id's dash-separated segments, each capitalized. */
  lemma NameWords(id: string)
    requires ' ' !in id
    ensures '-' !in Name(id)
    ensures Split(Name(id), ' ') == CapitalizeAll(Split(id, '-'))
    ensures |Split(Name(id), ' ')| == |Split(id, '-')|
  {
    var segments := Split(id, '-');
    var words := CapitalizeAll(segments);
    forall w | w in words ensures '-' !in w && ' ' !in w {
      var i :| 0 <= i < |words| && words[i] == w;
      assert segments[i] in segments;
      SplitPieceFrom(id, '-', i);
      CapitalizeKeeps(segments[i], '-');
      CapitalizeKeeps(segments[i], ' ');
    }
    JoinFree(words, " ", '-');
    SplitJoin(words, ' ');
  }

  /** A piece of a split holds no character the text lacks. */
  lemma {:induction false} SplitPieceFrom(s: string, c: char, i: int)
    requires 0 <= i < |Split(s, c)|
    ensures forall x :: x in Split(s, c)[i] ==> x in s
  {
    if s != [] {
      var rest := Split(s[1..], c);
      if s[0] == c {
        if i > 0 { SplitPieceFrom(s[1..], c, i - 1); }
      } else {
        if i == 0 {
          SplitPieceFrom(s[1..], c, 0);
        } else {
          SplitPieceFrom(s[1..], c, i);
        }
      }
    }
  }

  /** `posts()`: the loaded posts, last directory first. */
  function BookPosts<T>(loaded: seq<T>): (r: seq<T>)
    ensures |r| == |loaded| && forall i :: 0 <= i < |r| ==> r[i] == loaded[|loaded| - 1 - i]
  {
    Reverse(loaded)
  }

  /** `pages()`: one page per chunk of `PP` posts, each knowing its index
      and every chunk. */
  function BookPages<T>(loaded: seq<T>): (r: seq<Page<T>>)
    ensures var chunks := Chunk(BookPosts(loaded), PP);
      |r| == |chunks| && forall i :: 0 <= i < |r| ==> r[i] == Page(chunks[i], i, chunks)
  {
    var chunks := Chunk(BookPosts(loaded), PP);
    seq(|chunks|, i requires 0 <= i < |chunks| => Page(chunks[i], i, chunks))
  }

  /** The pages' posts, read in page order, are the book's posts; page
      `i` holds posts `36·i` up to `36·i + 36`; every page but the last is
      full. */
  lemma PagesCoverPosts<T>(loaded: seq<T>)
    ensures var pages := BookPages(loaded);
      && Flatten(seq(|pages|, i requires 0 <= i < |pages| => Posts(pages[i]))) == BookPosts(loaded)
      && (forall i :: 0 <= i < |pages| - 1 ==> |Posts(pages[i])| == PP)
      && (forall i :: 0 <= i < |pages| ==> TotalPages(pages[i]) == |pages| && pages[i].index == i)
  {
    var pages := BookPages(loaded);
    var chunks := Chunk(BookPosts(loaded), PP);
    assert seq(|pages|, i requires 0 <= i < |pages| => Posts(pages[i])) == chunks;
    ChunkFlatten(BookPosts(loaded), PP);
  }

  lemma PageSlice<T>(loaded: seq<T>, i: nat)
    requires i < |BookPages(loaded)|
    ensures var posts := BookPosts(loaded);
      i * PP < |posts| && Posts(BookPages(loaded)[i]) == posts[i * PP .. if i * PP + PP <= |posts| then i * PP + PP else |posts|]
  {
    ChunkPiece(BookPosts(loaded), PP, i);
  }
}
