/** What each row of the recent-appointments list derives from its
    appointment: the avatar's initials and the variant of the status badge. */
module RecentAppointments {
  import opened Appointments
  import Text

  /** `n[0]` for one piece of the name, as `join('')` then prints it: the
      first character, or nothing for an empty piece (whose `n[0]` is
      `undefined`, which `join` prints as the empty string). */
  function Head(piece: string): (h: string)
    ensures h <= piece
    ensures |h| == if piece == [] then 0 else 1
  {
    if piece == [] then [] else [piece[0]]
  }

  function Heads(pieces: seq<string>): (hs: seq<string>)
    ensures |hs| == |pieces|
    ensures forall i :: 0 <= i < |pieces| ==> hs[i] == Head(pieces[i])
  {
    if pieces == [] then [] else [Head(pieces[0])] + Heads(pieces[1..])
  }

  /** Reference definition: the characters that begin a word, that is, the
      non-space characters at the start of `s` (when `atStart`) or right
      after a space. */
  function WordStarts(s: string, atStart: bool): (r: string)
    ensures ' ' !in r
    ensures |r| <= Text.CountChar(s, ' ') + (if atStart then 1 else 0)
    decreases |s|
  {
    if s == [] then []
    else (if s[0] != ' ' && atStart then [s[0]] else []) + WordStarts(s[1..], s[0] == ' ')
  }

  /** The pieces after the first one contribute the word starts that follow
      a space. */
  lemma {:induction false} HeadsOfSplit(s: string)
    ensures Text.Concat(Heads(Text.Split(s, ' '))) == WordStarts(s, true)
    ensures Text.Concat(Heads(Text.Split(s, ' ')[1..])) == WordStarts(s, false)
    decreases |s|
  {
    if s != [] {
      var rest := Text.Split(s[1..], ' ');
      HeadsOfSplit(s[1..]);
      if s[0] == ' ' {
        var parts := [[]] + rest;
        assert Text.Split(s, ' ') == parts;
        assert parts[1..] == rest;
        assert Heads(parts) == [[]] + Heads(rest);
      } else {
        var parts := [[s[0]] + rest[0]] + rest[1..];
        assert Text.Split(s, ' ') == parts;
        assert parts[1..] == rest[1..];
        assert Heads(parts) == [[s[0]]] + Heads(rest[1..]);
      }
    }
  }

  /** `clientName.split(' ').map(n => n[0]).join('')`. The initials are
      exactly the first letters of the words, however many spaces separate
      them; there is at most one per word and never a space. */
  function Initials(clientName: string): (r: string)
    ensures r == WordStarts(clientName, true)
    ensures ' ' !in r
    ensures |r| <= Text.CountChar(clientName, ' ') + 1
  {
    HeadsOfSplit(clientName);
    Text.Concat(Heads(Text.Split(clientName, ' ')))
  }

  /** An empty name has no initials. */
  lemma EmptyNameHasNoInitials()
    ensures Initials([]) == []
  {
    assert Text.Split([], ' ') == [[]];
  }

  /** A name of one word has its first character as its only initial. */
  lemma OneWordInitial(clientName: string)
    requires clientName != [] && ' ' !in clientName
    ensures Initials(clientName) == [clientName[0]]
  {
    Text.SplitWithoutSeparator(clientName, ' ');
    var c := [clientName[0]];
    assert [clientName][1..] == [] && [c][1..] == [];
    assert Heads([clientName]) == [c];
    assert Text.Concat([c]) == c + Text.Concat([]);
  }

  /** A two-word name gives the two capitals. */
  lemma TwoWordsExample()
    ensures Initials("Jane Doe") == "JD"
  {
  }

  /** The variant of the status badge. */
  datatype BadgeVariant = Default | Secondary | Destructive

  /** `status === 'completed' ? 'default' : status === 'scheduled' ?
      'secondary' : 'destructive'`: a cancelled appointment and one without
      a status both get the destructive badge. */
  function Badge(status: Option<Status>): (v: BadgeVariant)
    ensures v == Default <==> status == Some(Completed)
    ensures v == Secondary <==> status == Some(Scheduled)
    ensures v == Destructive <==> status == Some(Cancelled) || status == None
  {
    match status
    case Some(Completed) => Default
    case Some(Scheduled) => Secondary
    case _ => Destructive
  }
}
