/** Reading newline-terminated lines through a fixed buffer from a source of short reads. */
module LineReader {
  import opened Wrappers
  import opened Memory
  import opened Strings

  /** Position of the first newline, or the length if there is none. */
  function LineLength(s: string): (n: nat)
    ensures n <= |s|
    ensures forall i :: 0 <= i < n ==> s[i] != '\n'
    ensures n < |s| ==> s[n] == '\n'
  {
    First(s, "\n")
  }

  /** The newline-terminated lines; an unterminated tail is not one. */
  function Lines(s: string): seq<string>
    decreases |s|
  {
    var n := LineLength(s);
    if n == |s| then [] else [s[..n]] + Lines(s[n + 1..])
  }

  /** Lines with their newlines, as a file holds them. */
  function Joined(lines: seq<string>): string
  {
    if lines == [] then "" else lines[0] + "\n" + Joined(lines[1..])
  }

  lemma PrefixBehindLine(line: string, joined: string, rest: string)
    requires joined <= rest
    ensures line + "\n" + joined <= line + "\n" + rest
    ensures (line + "\n" + rest)[|line + "\n" + joined|..] == rest[|joined|..]
  {
    assert rest == joined + rest[|joined|..];
    assert line + "\n" + rest == line + "\n" + joined + rest[|joined|..];
  }

  /** The lines of a text make it up again, apart from a tail without a newline, and have no newline inside. */
  lemma {:induction false} LinesMakeUpText(s: string)
    ensures Joined(Lines(s)) <= s && '\n' !in s[|Joined(Lines(s))|..]
    ensures forall l :: l in Lines(s) ==> '\n' !in l
    decreases |s|
  {
    var n := LineLength(s);
    if n < |s| {
      var line, rest := s[..n], s[n + 1..];
      LinesMakeUpText(rest);
      PrefixBehindLine(line, Joined(Lines(rest)), rest);
      assert s == line + "\n" + rest;
      assert Lines(s)[0] == line && Lines(s)[1..] == Lines(rest);
    }
  }

  /** The lines up to the first one that does not fit a buffer of n bytes with its newline. */
  function ReadableLines(s: string, n: nat): seq<string>
    decreases |s|
  {
    var k := LineLength(s);
    if k == |s| || n <= k then [] else [s[..k]] + ReadableLines(s[k + 1..], n)
  }

  /** All lines are read exactly when each fits the buffer; only an unterminated tail is dropped. */
  lemma {:induction false} AllLinesReadable(s: string, n: nat)
    ensures ReadableLines(s, n) <= Lines(s)
    ensures ReadableLines(s, n) == Lines(s) <==> forall l :: l in Lines(s) ==> |l| < n
    decreases |s|
  {
    var k := LineLength(s);
    if k < |s| {
      AllLinesReadable(s[k + 1..], n);
      assert Lines(s)[0] == s[..k];
      if k < n {
        assert ReadableLines(s, n)[1..] == ReadableLines(s[k + 1..], n) && Lines(s)[1..] == Lines(s[k + 1..]);
      }
    }
  }

  lemma OneMoreLine(before: seq<string>, s: string, n: nat)
    requires LineLength(s) < Min(|s|, n)
    ensures var k := LineLength(s);
      before + ReadableLines(s, n) == before + [s[..k]] + ReadableLines(s[k + 1..], n)
  {
  }

  lemma LineLengthIs(s: string, n: nat)
    requires n <= |s| && (forall i :: 0 <= i < n ==> s[i] != '\n') && (n < |s| ==> s[n] == '\n')
    ensures LineLength(s) == n
  {
  }

  /** The line that ends at the first newline of what a text starts with. */
  lemma LineIn(s: string, start: string, rest: string, n: nat)
    requires s == start + rest && n < |start| && start[n] == '\n' && '\n' !in start[..n]
    ensures LineLength(s) == n && s[..n] == start[..n] && s[n + 1..] == start[n + 1..] + rest
  {
    assert forall i :: 0 <= i < n ==> s[i] == start[..n][i];
    LineLengthIs(s, n);
  }

  lemma NoLineIn(s: string, start: string)
    requires start <= s && '\n' !in start
    ensures LineLength(s) >= |start|
  {
    assert forall i :: 0 <= i < |start| ==> s[i] == start[i];
  }

  class LineReader {
    const buf: array<char>
    var bol: nat
    var eol: nat
    var eod: nat
    // What the file descriptor still has to give, and whether reading from it may fail at some point.
    var file: string
    const broken: bool

    ghost predicate Valid()
      reads this
    {
      eod <= buf.Length && (eod > 0 ==> eol < eod)
    }

    /** Everything behind the line returned last. */
    ghost function Rest(): string
      requires Valid()
      reads this, buf
    {
      if eod == 0 then file else buf[eol + 1..eod] + file
    }

    constructor (buf: array<char>, file: string, broken: bool)
      ensures Valid() && this.buf == buf && this.file == file && this.broken == broken && Rest() == file
    {
      this.buf, this.file, this.broken := buf, file, broken;
      bol, eol, eod := 0, 0, 0;
    }

    /** One read call: any positive number of the bytes asked for, none only at the end of the file, or an error. */
    method Read(at: nat, count: nat) returns (len: int)
      requires at + count <= buf.Length
      modifies `file, buf
      ensures -1 <= len <= count && len <= |old(file)| && (len == -1 ==> broken)
      ensures len == 0 ==> count == 0 || old(file) == ""
      ensures len >= 0 ==> file == old(file)[len..]
      ensures len >= 0 ==> forall k :: 0 <= k < at ==> buf[k] == old(buf[k])
      ensures len >= 0 ==> forall k :: at <= k < at + len ==> buf[k] == old(file)[k - at]
    {
      if broken {
        var fails: bool :| true;
        if fails {
          return -1;
        }
      }
      if count == 0 || file == "" {
        return 0;
      }
      len :| 0 < len <= count && len <= |file|;
      Memcpy(buf, at, file[..len]);
      file := file[len..];
    }

    /** Reads until the count is reached or the file ends; an error on the way is returned as -1. */
    method ReadPersistent(at: nat, count: nat) returns (numBytes: int)
      requires at + count <= buf.Length
      modifies `file, buf
      ensures if numBytes == -1 then broken else numBytes == Min(count, |old(file)|)
      ensures numBytes >= 0 ==> file == old(file)[numBytes..]
      ensures numBytes >= 0 ==> buf[..at] == old(buf[..at]) && buf[at..at + numBytes] == old(file)[..numBytes]
    {
      ghost var all := file;
      numBytes := 0;
      while numBytes < count
        invariant 0 <= numBytes <= count && numBytes <= |all|
        invariant file == all[numBytes..]
        invariant forall k :: 0 <= k < at ==> buf[k] == old(buf[k])
        invariant forall k :: at <= k < at + numBytes ==> buf[k] == all[k - at]
        modifies `file, buf
      {
        var len := Read(at + numBytes, count - numBytes);
        if len < 0 {
          return -1;
        }
        if len == 0 {
          break;
        }
        numBytes := numBytes + len;
      }
    }

    method FindLineFeed() returns (at: Option<nat>)
      requires bol <= eod <= buf.Length
      ensures at.None? <==> '\n' !in buf[bol..eod]
      ensures at.Some? ==> bol <= at.value < eod && buf[at.value] == '\n' && '\n' !in buf[bol..at.value]
    {
      var p := bol;
      while p < eod
        invariant bol <= p <= eod
        invariant '\n' !in buf[bol..p]
      {
        if buf[p] == '\n' {
          return Some(p);
        }
        p := p + 1;
      }
      return None;
    }

    method ReadLine() returns (ok: bool)
      requires Valid()
      modifies this, buf
      ensures ok ==> LineLength(old(Rest())) < Min(|old(Rest())|, buf.Length)
      ensures !ok ==> LineLength(old(Rest())) >= Min(|old(Rest())|, buf.Length) || broken
      ensures ok ==> Valid() && bol <= eol < buf.Length && buf[eol] == '\0'
      ensures ok ==> buf[bol..eol] == old(Rest())[..LineLength(old(Rest()))]
      ensures ok ==> Rest() == old(Rest())[LineLength(old(Rest())) + 1..]
    {
      ghost var rest := Rest();
      var filled := FillBuffer();
      if !filled {
        return false;
      }
      var feed := FindLineFeed();
      if feed.None? {
        NoLineIn(rest, buf[bol..eod]);
        return false;
      }
      EndLine(feed.value, rest);
      return true;
    }

    /** The newline found is replaced by a terminator. */
    method EndLine(at: nat, ghost rest: string)
      requires bol <= at < eod <= buf.Length && buf[at] == '\n' && '\n' !in buf[bol..at]
      requires rest == buf[bol..eod] + file
      modifies `eol, buf
      ensures Valid() && eol == at && buf[eol] == '\0'
      ensures LineLength(rest) == at - bol < Min(|rest|, buf.Length)
      ensures buf[bol..eol] == rest[..LineLength(rest)] && Rest() == rest[LineLength(rest) + 1..]
    {
      eol := at;
      ghost var n, window := eol - bol, buf[bol..eod];
      assert window[..n] == buf[bol..eol] && window[n + 1..] == buf[eol + 1..eod];
      LineIn(rest, window, file, n);
      buf[eol] := '\0';
    }

    /** Makes sure the buffer holds the next line, or as much of it as there is or as fits. */
    method FillBuffer() returns (ok: bool)
      requires Valid()
      modifies this, buf
      ensures bol <= eod <= buf.Length
      ensures ok ==> eod > 0 && old(Rest()) == buf[bol..eod] + file
      ensures ok ==> '\n' in buf[bol..eod] || file == "" || (bol == 0 && eod == buf.Length)
      ensures !ok ==> LineLength(old(Rest())) >= Min(|old(Rest())|, buf.Length) || broken
    {
      if eod == 0 {
        var numBytes := ReadPersistent(0, buf.Length);
        bol := 0;
        if numBytes <= 0 {
          return false;
        }
        eod := numBytes;
        return true;
      }
      bol := eol + 1;
      var feed := FindLineFeed();
      if feed.Some? {
        return true;
      }
      ok := Refill();
    }

    /** The start of a line moves to the front of the buffer, and more of it is read behind it. */
    method Refill() returns (ok: bool)
      requires bol <= eod <= buf.Length && eod > 0 && '\n' !in buf[bol..eod]
      modifies this, buf
      ensures bol <= eod <= buf.Length
      ensures ok ==> eod > 0 && old(buf[bol..eod] + file) == buf[bol..eod] + file
      ensures ok ==> file == "" || (bol == 0 && eod == buf.Length)
      ensures !ok ==> bol == old(bol) && eod == old(eod)
      ensures !ok ==> var rest := old(buf[bol..eod] + file); LineLength(rest) >= Min(|rest|, buf.Length) || broken
    {
      ghost var rest := buf[bol..eod] + file;
      var incomplete := eod - bol;
      ghost var tail := buf[bol..eod];
      Memmove(buf, 0, bol, incomplete);
      assert buf[..incomplete] == tail;
      var numBytes := ReadPersistent(incomplete, buf.Length - incomplete);
      if numBytes <= 0 {
        NoLineIn(rest, tail);
        return false;
      }
      assert buf[0..incomplete + numBytes] == tail + buf[incomplete..incomplete + numBytes];
      eod := incomplete + numBytes;
      bol := 0;
      return true;
    }

    /** Reads lines until the first refusal; an error cuts them short, and nothing else does. */
    method ReadAll() returns (lines: seq<string>)
      requires Valid()
      modifies this, buf
      ensures lines <= ReadableLines(old(Rest()), buf.Length)
      ensures !broken ==> lines == ReadableLines(old(Rest()), buf.Length)
    {
      ghost var all := Rest();
      lines := [];
      var ok := true;
      while ok
        invariant ok ==> Valid() && ReadableLines(all, buf.Length) == lines + ReadableLines(Rest(), buf.Length)
        invariant !ok ==> lines <= ReadableLines(all, buf.Length)
        invariant !ok && !broken ==> ReadableLines(all, buf.Length) == lines
        decreases ok, if ok then |Rest()| else 0
      {
        ghost var rest := Rest();
        ok := ReadLine();
        if ok {
          OneMoreLine(lines, rest, buf.Length);
          lines := lines + [buf[bol..eol]];
        }
      }
    }
  }
}
