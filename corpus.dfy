/** The program's fixed corpus: 23 English sentences, and the UTF-8 bytes
    they are stored as. */
module Corpus {
  import opened Common

  /** Sentence i of the fixed corpus, as the program's source text spells it. */
  function Sentence(i: nat): string
    requires i < 23
  {
    match i
    case 0 => "There is some good in this world, and it\U{2019}s worth fighting for."
    case 1 => "It is only with the heart that one can see rightly; what is essential is invisible to the eye."
    case 2 => "I am no bird; and no net ensnares me: I am a free human being with an independent will, which I now exert to leave you."
    case 3 => "It was the best of times, it was the worst of times, it was the age of wisdom, it was the age of foolishness, it was the epoch of belief, it was the epoch of incredulity, it was the season of Light, it was the season of Darkness, it was the spring of hope, it was the winter of despair."
    case 4 => "Beware; for I am fearless, and therefore powerful."
    case 5 => "A man, after he has brushed off the dust and chips of his life, will have left only the hard, clean questions: Was it good or was it evil? Have I done well \U{2014} or ill?"
    case 6 => "This above all: To thine own self be true, And it must follow, as the night the day, Thou canst not then be false to any man."
    case 7 => "Why did you do all this for me?\U{2019} he asked. \U{2018}I don\U{2019}t deserve it. I\U{2019}ve never done anything for you.\U{2019} \U{2018}You have been my friend,\U{2019} replied Charlotte. \U{2018}That in itself is a tremendous thing."
    case 8 => "It does not do to dwell on dreams and forget to live."
    case 9 => "When you play the game of thrones you win or you die."
    case 10 => "The world breaks everyone, and afterward, many are strong at the broken places."
    case 11 => "But soft! What light through yonder window breaks? It is the east, and Juliet is the sun."
    case 12 => "And, when you want something, all the universe conspires in helping you to achieve it."
    case 13 => "It is our choices, Harry, that show what we truly are, far more than our abilities."
    case 14 => "As Gregor Samsa awoke one morning from uneasy dreams he found himself transformed in his bed into an enormous insect."
    case 15 => "There is nothing like looking, if you want to find something. You certainly usually find something, if you look, but it is not always quite the something you were after."
    case 16 => "All we can know is that we know nothing. And that\U{2019}s the height of human wisdom."
    case 17 => "Toto, I've a feeling we're not in Kansas anymore."
    case 18 => "They may take our lives, but they'll never take our freedom!"
    case 19 => "Here's Johnny!"
    case 20 => "It was beauty killed the beast."
    case 21 => "Keep your friends close, but your enemies closer."
    case _ => "Life was like a box of chocolates; you never know what you\U{2019}re gonna get."
  }

  /** The fixed corpus, as the program's source text spells it. */
  function Strings(): (c: seq<string>)
    ensures |c| == 23
  {
    seq(23, Sentence)
  }

  /** The UTF-8 encoding of one Unicode scalar value: the bytes Go stores for
      it in a string literal. */
  function EncodeRune(c: char): (b: seq<byte>)
    ensures 1 <= |b| <= 4
    ensures |b| == 1 <==> c as int < 0x80
  {
    var cp := c as int;
    if cp < 0x80 then [cp]
    else if cp < 0x800 then [0xC0 + cp / 0x40, 0x80 + cp % 0x40]
    else if cp < 0x1_0000 then [0xE0 + cp / 0x1000, 0x80 + (cp / 0x40) % 0x40, 0x80 + cp % 0x40]
    else [0xF0 + cp / 0x4_0000, 0x80 + (cp / 0x1000) % 0x40, 0x80 + (cp / 0x40) % 0x40, 0x80 + cp % 0x40]
  }

  /** The UTF-8 encoding of a string: never shorter than the string, at most
      four bytes per character. */
  function Utf8(s: string): (b: seq<byte>)
    ensures |s| <= |b| <= 4 * |s|
  {
    if s == [] then [] else EncodeRune(s[0]) + Utf8(s[1..])
  }

  /** The program's corpus as the bytes it is stored in. */
  function Sentences(): (c: seq<seq<byte>>)
    ensures |c| == |Strings()|
  {
    seq(|Strings()|, i requires 0 <= i < |Strings()| => Utf8(Strings()[i]))
  }

  /** The program's corpus has 23 sentences, so a draw always has one to
      pick. Progress does not rest on the sentences being non-empty: every
      piece carries its trailing space (see Passages.Piece). */
  lemma CorpusSize()
    ensures |Sentences()| == 23
  {
  }
}
