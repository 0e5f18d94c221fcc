/**
 * The client side of `executeShell` in the SDK: the string the service
 * returns is turned back into an exit code, stdout and stderr.
 */
module AgentOSShell {
  import opened Results
  import opened Jvm
  import opened KotlinText
  import opened SystemExecution

  datatype ShellResult = ShellResult(exitCode: int32, stdout: string, stderr: string) {
    predicate IsSuccess() {
      exitCode == 0
    }

    /** stdout when there is any, else stderr. */
    function Output(): string {
      if stdout != "" then stdout else stderr
    }
  }

  const ERROR_PREFIX: string := "ERROR (exit "

  /**
   * The parse in `AgentOS.executeShell`: output that starts with the error
   * prefix gives the `Int` between `"exit "` and the next `")"` (1 when that
   * is not an `Int`), no stdout, and everything after the first `"): "` as
   * stderr; any other output is a success whose stdout is the whole string.
   */
  function ParseShellOutput(output: string): ShellResult {
    if StartsWith(output, ERROR_PREFIX) then
      var code := match ToIntOrNull(SubstringBefore(SubstringAfter(output, "exit "), ")"))
        case Some(n) => n
        case None => 1;
      ShellResult(code, "", SubstringAfter(output, "): "))
    else
      ShellResult(0, output, "")
  }

  /** In output that starts with the error prefix, the first `"exit "` is the one in the prefix. */
  lemma ExitMarkerInPrefix(output: string)
    requires StartsWith(output, ERROR_PREFIX)
    ensures IndexOf(output, "exit ") == Some(7)
    ensures SubstringAfter(output, "exit ") == output[12..]
  {
    assert output[..12] == ERROR_PREFIX;
    assert output[7..12] == "exit ";
    forall j | 0 <= j < 7
      ensures !OccursAt(output, "exit ", j)
    {
      assert output[j] == ERROR_PREFIX[j];
    }
    IndexOfIs(output, "exit ", 7);
  }

  /**
   * Error-prefixed output: the exit code is the `Int` written after the
   * prefix up to the first `")"`, or 1; stdout is empty; stderr is what
   * follows the first `"): "`.
   */
  lemma ParseErrorOutput(output: string)
    requires StartsWith(output, ERROR_PREFIX)
    ensures ParseShellOutput(output).stdout == ""
    ensures ParseShellOutput(output).stderr == SubstringAfter(output, "): ")
    ensures ParseShellOutput(output).exitCode ==
      match ToIntOrNull(SubstringBefore(output[12..], ")")) case Some(n) => n case None => 1
  {
    ExitMarkerInPrefix(output);
  }

  /** Output without the error prefix is a success carrying the whole string as stdout. */
  lemma ParsePlainOutput(output: string)
    requires !StartsWith(output, ERROR_PREFIX)
    ensures ParseShellOutput(output) == ShellResult(0, output, "")
    ensures ParseShellOutput(output).IsSuccess() && ParseShellOutput(output).Output() == output
  {
  }

  /** No `')'` in a string of digits and minus signs. */
  predicate NumberChars(d: string) {
    forall i :: 0 <= i < |d| ==> d[i] == '-' || IsDigit(d[i])
  }

  lemma FirstCloseParen(digits: string, rest: string)
    requires NumberChars(digits)
    ensures SubstringBefore(digits + "): " + rest, ")") == digits
  {
    var after := digits + "): " + rest;
    forall j | 0 <= j < |digits|
      ensures !OccursAt(after, ")", j)
    {
      assert after[j] == digits[j];
    }
    assert OccursAt(after, ")", |digits|) by { assert after[|digits|] == ')'; }
    IndexOfIs(after, ")", |digits|);
  }

  lemma FirstSeparator(digits: string, rest: string)
    requires NumberChars(digits)
    ensures SubstringAfter(ERROR_PREFIX + digits + "): " + rest, "): ") == rest
  {
    var o := ERROR_PREFIX + digits + "): " + rest;
    var k := 12 + |digits|;
    forall j | 0 <= j < k
      ensures !OccursAt(o, "): ", j)
    {
      if j < 12 {
        assert o[j] == ERROR_PREFIX[j];
      } else {
        assert o[j] == digits[j - 12];
      }
    }
    assert o[k..k + 3] == "): ";
    IndexOfIs(o, "): ", k);
    assert o[k + 3..] == rest;
  }

  /** The parse of an error line whose exit field holds only digits and minus signs. */
  lemma ParseErrorLine(digits: string, rest: string)
    requires NumberChars(digits)
    ensures ParseShellOutput(ERROR_PREFIX + digits + "): " + rest) ==
      ShellResult(match ToIntOrNull(digits) case Some(n) => n case None => 1, "", rest)
  {
    var o := ERROR_PREFIX + digits + "): " + rest;
    assert StartsWith(o, ERROR_PREFIX) by { assert o[..12] == ERROR_PREFIX; }
    ExitMarkerInPrefix(o);
    assert o[12..] == digits + "): " + rest;
    FirstCloseParen(digits, rest);
    assert SubstringBefore(SubstringAfter(o, "exit "), ")") == digits;
    FirstSeparator(digits, rest);
  }

  /**
   * Round trip with the service's formatter: a failing command that wrote to
   * stderr comes back with its exit value, no stdout, and stderr followed by
   * a newline and stdout as its stderr, which is then also its output.
   */
  lemma ParseFormattedFailure(exitValue: int32, out: string, err: string)
    requires exitValue != 0 && err != ""
    ensures ParseShellOutput(FormatShellOutput(exitValue, out, err)) == ShellResult(exitValue, "", err + "\n" + out)
    ensures !ParseShellOutput(FormatShellOutput(exitValue, out, err)).IsSuccess()
    ensures ParseShellOutput(FormatShellOutput(exitValue, out, err)).Output() == err + "\n" + out
  {
    var digits := IntToString(exitValue);
    var rest := err + "\n" + out;
    assert FormatShellOutput(exitValue, out, err) == ERROR_PREFIX + digits + "): " + rest;
    IntToStringChars(exitValue);
    IntToStringRoundTrip(exitValue);
    ParseErrorLine(digits, rest);
  }

  /**
   * Round trip for every other command: when the formatted output does not
   * itself start with the error prefix, the client sees exit code 0 and
   * stdout followed by stderr.
   */
  lemma ParseFormattedOther(exitValue: int32, out: string, err: string)
    requires exitValue == 0 || err == ""
    requires !StartsWith(out + err, ERROR_PREFIX)
    ensures ParseShellOutput(FormatShellOutput(exitValue, out, err)) == ShellResult(0, out + err, "")
  {
  }

  /**
   * The format drops the exit value of a failing command that wrote nothing
   * to stderr, so the client reports it as a success.
   */
  lemma SilentFailureReadsAsSuccess(exitValue: int32, out: string)
    requires exitValue != 0
    requires !StartsWith(out, ERROR_PREFIX)
    ensures ParseShellOutput(FormatShellOutput(exitValue, out, "")).IsSuccess()
    ensures ParseShellOutput(FormatShellOutput(exitValue, out, "")).stdout == out
  {
    assert out + "" == out;
  }
}
