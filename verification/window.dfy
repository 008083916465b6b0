/** The head-and-tail window the classifier stage applies to long post text
    before tokenisation. */
module Window {
  import opened Text

  const MAX_CHARS: nat := 2000
  const FRONT_CHARS: nat := 1000
  const BACK_CHARS: nat := 1000

  /** _text_for_model: short text passes through; longer text becomes its
      stripped first FRONT_CHARS characters, one space, and its stripped last
      BACK_CHARS characters. */
  function TextForModel(text: string): (r: string)
    ensures |text| <= MAX_CHARS ==> r == text
    ensures |text| > MAX_CHARS ==>
      exists h, t :: r == h + " " + t && StripOf(text[..FRONT_CHARS], h) && StripOf(text[|text| - BACK_CHARS..], t)
    ensures |r| <= |text|
    ensures |r| <= FRONT_CHARS + BACK_CHARS + 1
  {
    if |text| <= MAX_CHARS then text
    else
      var head, tail := text[..FRONT_CHARS], text[|text| - BACK_CHARS..];
      StripCharacterised(head, Strip(head));
      StripCharacterised(tail, Strip(tail));
      Strip(head) + " " + Strip(tail)
  }

  /** A window is exactly FRONT_CHARS + 1 + BACK_CHARS long precisely when
      neither slice starts or ends with whitespace. */
  lemma WindowFullLength(text: string)
    requires |text| > MAX_CHARS
    ensures |TextForModel(text)| == FRONT_CHARS + BACK_CHARS + 1
        <==> IsStripped(text[..FRONT_CHARS]) && IsStripped(text[|text| - BACK_CHARS..])
  {
    var h := text[..FRONT_CHARS];
    var t := text[|text| - BACK_CHARS..];
    var sh, st := Strip(h), Strip(t);
    assert |TextForModel(text)| == |sh| + 1 + |st|;
    assert |sh| == FRONT_CHARS <==> IsStripped(h) by {
      if |sh| == |h| {
        assert sh == h;
        assert IsStripped(sh);
      }
    }
    assert |st| == BACK_CHARS <==> IsStripped(t) by {
      if |st| == |t| {
        assert st == t;
        assert IsStripped(st);
      }
    }
  }

  /** Windowing its own output changes nothing. */
  lemma WindowIdempotent(text: string)
    ensures TextForModel(TextForModel(text)) == TextForModel(text)
  {
    var r := TextForModel(text);
    if |text| > MAX_CHARS && |r| > MAX_CHARS {
      var sh, st := Strip(text[..FRONT_CHARS]), Strip(text[|text| - BACK_CHARS..]);
      assert r == sh + " " + st;
      assert |sh| == FRONT_CHARS && |st| == BACK_CHARS;
      JoinSlices(sh, st);
      assert r[..FRONT_CHARS] == sh && r[|r| - BACK_CHARS..] == st;
    }
  }

  /** The two halves of a joined window are recovered by slicing. */
  lemma JoinSlices(a: string, b: string)
    ensures (a + " " + b)[..|a|] == a
    ensures (a + " " + b)[|a| + 1..] == b
  {
  }

  /** Windowing already-stripped text yields stripped text. */
  lemma WindowKeepsStripped(text: string)
    requires IsStripped(text)
    ensures IsStripped(TextForModel(text))
  {
    if |text| > MAX_CHARS {
      var h := text[..FRONT_CHARS];
      var t := text[|text| - BACK_CHARS..];
      assert h[0] == text[0] && t[|t| - 1] == text[|text| - 1];
      assert !AllSpace(h) && !AllSpace(t);
      var r := Strip(h) + " " + Strip(t);
      assert r[0] == Strip(h)[0];
      assert r[|r| - 1] == Strip(t)[|Strip(t)| - 1];
    }
  }
}
