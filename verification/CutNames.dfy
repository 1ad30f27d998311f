/** The file names of a saved cut, and why two of them never coincide. */
module CutNames {
  import opened Prelude

  /** What a file of a saved cut is, apart from its bytes. */
  datatype Key =
    | Pin(index: nat)
    | Page(collection: nat, page: nat)
    | Chunk(collection: nat, component: nat, offset: nat)

  const PIN_NAMES: seq<string> := ["source-token.bin", "identity.bin", "package.bin", "transfer.bin"]

  /** Keys whose numbers fit the fixed widths of the names. */
  predicate Fits(k: Key) {
    match k
    case Pin(i) => i < 4
    case Page(c, p) => c < 100 && p <= U64_MAX
    case Chunk(c, i, o) => c < 100 && i <= U64_MAX && o <= U64_MAX
  }

  function Digit(d: nat): char
    requires d < 10
  {
    ['0', '1', '2', '3', '4', '5', '6', '7', '8', '9'][d]
  }

  /** The decimal digits of n, padded with zeros to the given width. */
  function Padded(n: nat, width: nat): (s: string)
    ensures |s| == width
    ensures forall c <- s :: c != '/'
  {
    if width == 0 then "" else Padded(n / 10, width - 1) + [Digit(n % 10)]
  }

  function Pow10(width: nat): nat {
    if width == 0 then 1 else 10 * Pow10(width - 1)
  }

  function Name(k: Key): string
    requires Fits(k)
  {
    match k
    case Pin(i) => PIN_NAMES[i]
    case Page(c, p) => "page-" + Padded(c, 2) + "-" + Padded(p, 20) + ".bin"
    case Chunk(c, i, o) => "chunk-" + Padded(c, 2) + "-" + Padded(i, 20) + "-" + Padded(o, 20) + ".bin"
  }

  lemma {:induction false} PaddedInjective(n: nat, m: nat, width: nat)
    requires n < Pow10(width) && m < Pow10(width) && Padded(n, width) == Padded(m, width)
    ensures n == m
  {
    if width > 0 {
      var a, b := Padded(n, width), Padded(m, width);
      assert a[..width - 1] == Padded(n / 10, width - 1) && b[..width - 1] == Padded(m / 10, width - 1);
      assert a[width - 1] == Digit(n % 10) && b[width - 1] == Digit(m % 10);
      PaddedInjective(n / 10, m / 10, width - 1);
    }
  }

  lemma U64FitsTwentyDigits()
    ensures U64_MAX < Pow10(20) && 100 == Pow10(2)
  {
    assert Pow10(4) == 10_000;
    assert Pow10(8) == 100_000_000;
    assert Pow10(12) == 1_000_000_000_000;
    assert Pow10(16) == 10_000_000_000_000_000;
    assert Pow10(20) == 100_000_000_000_000_000_000;
  }

  lemma SameHalves(x: string, y: string, x': string, y': string)
    requires x + y == x' + y' && |x| == |x'|
    ensures x == x' && y == y'
  {
    assert (x + y)[..|x|] == x && (x' + y')[..|x|] == x';
    assert (x + y)[|x|..] == y && (x' + y')[|x|..] == y';
  }

  lemma PageNameInjective(c: nat, p: nat, c': nat, p': nat)
    requires Fits(Page(c, p)) && Fits(Page(c', p')) && Name(Page(c, p)) == Name(Page(c', p'))
    ensures c == c' && p == p'
  {
    var a, b := Padded(c, 2), Padded(p, 20);
    var a', b' := Padded(c', 2), Padded(p', 20);
    SameHalves("page-" + a + "-" + b, ".bin", "page-" + a' + "-" + b', ".bin");
    SameHalves("page-" + a + "-", b, "page-" + a' + "-", b');
    SameHalves("page-" + a, "-", "page-" + a', "-");
    SameHalves("page-", a, "page-", a');
    U64FitsTwentyDigits();
    PaddedInjective(c, c', 2);
    PaddedInjective(p, p', 20);
  }

  lemma ChunkNameInjective(c: nat, i: nat, o: nat, c': nat, i': nat, o': nat)
    requires Fits(Chunk(c, i, o)) && Fits(Chunk(c', i', o')) && Name(Chunk(c, i, o)) == Name(Chunk(c', i', o'))
    ensures c == c' && i == i' && o == o'
  {
    var a, b, d := "chunk-" + Padded(c, 2) + "-", Padded(i, 20), Padded(o, 20);
    var a', b', d' := "chunk-" + Padded(c', 2) + "-", Padded(i', 20), Padded(o', 20);
    SameHalves(a + b + "-" + d, ".bin", a' + b' + "-" + d', ".bin");
    SameHalves(a + b + "-", d, a' + b' + "-", d');
    SameHalves(a + b, "-", a' + b', "-");
    SameHalves(a, b, a', b');
    SameHalves("chunk-" + Padded(c, 2), "-", "chunk-" + Padded(c', 2), "-");
    SameHalves("chunk-", Padded(c, 2), "chunk-", Padded(c', 2));
    U64FitsTwentyDigits();
    PaddedInjective(c, c', 2);
    PaddedInjective(i, i', 20);
    PaddedInjective(o, o', 20);
  }

  /** The kinds of file are told apart by the first letters of their names. */
  lemma FirstLetters(k: Key)
    requires Fits(k)
    ensures |Name(k)| >= 8
    ensures k.Page? ==> Name(k)[..3] == "pag"
    ensures k.Chunk? ==> Name(k)[..3] == "chu"
    ensures k.Pin? ==> Name(k)[..3] == ["sou", "ide", "pac", "tra"][k.index]
    ensures Name(k)[..3] != "com" && Name(k)[0] != '.' && '/' !in Name(k)
  {
  }

  /** Different files have different names. */
  lemma NamesInjective(k: Key, k': Key)
    requires Fits(k) && Fits(k') && Name(k) == Name(k')
    ensures k == k'
  {
    match (k, k')
    case (Page(c, p), Page(c', p')) => PageNameInjective(c, p, c', p');
    case (Chunk(c, i, o), Chunk(c', i', o')) => ChunkNameInjective(c, i, o, c', i', o');
    case _ => FirstLetters(k); FirstLetters(k');
  }
}
