/** app/report/page.tsx: the report form's state (the field values and the
    per-field error messages), the progress bar over the six required
    fields, and the image check. */
module ReportPage {
  import opened Common
  import opened ImageUpload

  // ---------------------------------------------------------------------
  // String.prototype.trim

  /** The characters trim removes: ECMAScript's WhiteSpace and
      LineTerminator. */
  predicate IsJsSpace(c: char)
  {
    c == '\t' || c == '\n' || c == '\U{000B}' || c == '\U{000C}' || c == '\r' || c == ' ' ||
    c == '\U{00A0}' || c == '\U{1680}' || ('\U{2000}' <= c <= '\U{200A}') ||
    c == '\U{2028}' || c == '\U{2029}' || c == '\U{202F}' || c == '\U{205F}' ||
    c == '\U{3000}' || c == '\U{FEFF}'
  }

  predicate AllSpace(s: string)
  {
    forall i :: 0 <= i < |s| ==> IsJsSpace(s[i])
  }

  /** trimStart: drops leading white space. */
  function TrimStart(s: string): (r: string)
    ensures r == [] || !IsJsSpace(r[0])
  {
    if s != [] && IsJsSpace(s[0]) then TrimStart(s[1..]) else s
  }

  /** trimEnd: drops trailing white space. */
  function TrimEnd(s: string): (r: string)
    ensures r == [] || !IsJsSpace(r[|r| - 1])
  {
    if s != [] && IsJsSpace(s[|s| - 1]) then TrimEnd(s[..|s| - 1]) else s
  }

  /** What trimStart leaves is a suffix of `s` and everything it drops is
      white space; with TrimStart's own contract (the rest does not start
      with white space) this fixes the result. */
  lemma {:induction false} TrimStartDropsLeadingSpace(s: string)
    ensures var r := TrimStart(s);
      |r| <= |s| && r == s[|s| - |r|..] && AllSpace(s[..|s| - |r|])
  {
    if s != [] && IsJsSpace(s[0]) {
      var r := TrimStart(s[1..]);
      TrimStartDropsLeadingSpace(s[1..]);
      SpaceThenSpaces(s, |s| - |r|);
    }
  }

  /** What trimEnd leaves is a prefix of `s` and everything it drops is
      white space. */
  lemma {:induction false} TrimEndDropsTrailingSpace(s: string)
    ensures var r := TrimEnd(s);
      |r| <= |s| && r == s[..|r|] && AllSpace(s[|r|..])
  {
    if s != [] && IsJsSpace(s[|s| - 1]) {
      var r := TrimEnd(s[..|s| - 1]);
      TrimEndDropsTrailingSpace(s[..|s| - 1]);
      SpacesThenSpace(s, |r|);
    }
  }

  /** A white-space character followed by white space. */
  lemma SpaceThenSpaces(s: string, k: nat)
    requires 0 < k <= |s| && IsJsSpace(s[0]) && AllSpace(s[1..][..k - 1])
    ensures AllSpace(s[..k])
  {
    forall i | 0 <= i < k ensures IsJsSpace(s[..k][i]) {
      if i > 0 { assert s[..k][i] == s[1..][..k - 1][i - 1]; }
    }
  }

  /** White space followed by a white-space character. */
  lemma SpacesThenSpace(s: string, k: nat)
    requires k < |s| && IsJsSpace(s[|s| - 1]) && AllSpace(s[..|s| - 1][k..])
    ensures AllSpace(s[k..])
  {
    forall i | 0 <= i < |s| - k ensures IsJsSpace(s[k..][i]) {
      if i < |s| - 1 - k { assert s[k..][i] == s[..|s| - 1][k..][i]; }
    }
  }

  /** trim(): both ends stripped. */
  function Trim(s: string): string
  {
    TrimEnd(TrimStart(s))
  }

  lemma {:induction false} TrimStartEmpty(s: string)
    ensures TrimStart(s) == [] <==> AllSpace(s)
  {
    if s != [] && IsJsSpace(s[0]) {
      TrimStartEmpty(s[1..]);
      assert AllSpace(s) <==> AllSpace(s[1..]) by {
        if AllSpace(s[1..]) {
          forall i | 0 <= i < |s| ensures IsJsSpace(s[i]) {
            if i > 0 { assert s[i] == s[1..][i - 1]; }
          }
        }
      }
    }
  }

  lemma {:induction false} TrimEndOfNonSpace(s: string)
    requires s != [] && !IsJsSpace(s[0])
    ensures TrimEnd(s) != []
  {
    if IsJsSpace(s[|s| - 1]) {
      TrimEndOfNonSpace(s[..|s| - 1]);
    }
  }

  /** A trimmed value is empty exactly when every character is white space:
      a field "counts" as soon as it holds one visible character. */
  lemma TrimEmptyIff(s: string)
    ensures Trim(s) == "" <==> AllSpace(s)
  {
    TrimStartEmpty(s);
    var t := TrimStart(s);
    if t != [] {
      assert !IsJsSpace(t[0]);
      TrimEndOfNonSpace(t);
    }
  }

  // ---------------------------------------------------------------------
  // getProgressPercentage

  const RequiredFields: seq<string> :=
    ["title", "description", "category", "location", "contact_name", "contact_email"]

  /** `formData[field]?.toString().trim()` is truthy. */
  predicate Filled(form: map<string, string>, field: string)
  {
    field in form && Trim(form[field]) != ""
  }

  /** The number of `fields` that are filled. */
  function CountFilled(form: map<string, string>, fields: seq<string>): (k: nat)
    ensures k <= |fields|
  {
    if fields == [] then 0 else (if Filled(form, fields[0]) then 1 else 0) + CountFilled(form, fields[1..])
  }

  /** `Math.round(k / 6 * 100)` for the k filled required fields. */
  function ProgressOf(form: map<string, string>): int
  {
    (100 * CountFilled(form, RequiredFields) + 3) / 6
  }

  /** The integer formula is Math.round: for every k in 0..6 the value is
      the integer nearest to 100k/6 (never a tie), so the seven possible
      values are 0, 17, 33, 50, 67, 83 and 100. */
  lemma ProgressIsRounding(k: nat)
    requires k <= 6
    ensures var p := (100 * k + 3) / 6;
      -3 < 100 * k - 6 * p < 3 &&
      p == [0, 17, 33, 50, 67, 83, 100][k]
  {
  }

  /** The bar runs from 0 with nothing filled to 100 with all six filled,
      and is monotone in the number filled. */
  lemma ProgressBounds(a: map<string, string>, b: map<string, string>)
    ensures 0 <= ProgressOf(a) <= 100
    ensures CountFilled(a, RequiredFields) == 0 ==> ProgressOf(a) == 0
    ensures CountFilled(a, RequiredFields) == 6 ==> ProgressOf(a) == 100
    ensures CountFilled(a, RequiredFields) <= CountFilled(b, RequiredFields) ==> ProgressOf(a) <= ProgressOf(b)
  {
  }

  /** Changing a field outside `fields` does not change the count. */
  lemma {:induction false} CountIgnoresOtherFields(form: map<string, string>, fields: seq<string>, f: string, v: string)
    requires f !in fields
    ensures CountFilled(form[f := v], fields) == CountFilled(form, fields)
  {
    if fields != [] {
      CountIgnoresOtherFields(form, fields[1..], f, v);
    }
  }

  /** Filling a field never lowers the count, blanking one never raises it. */
  lemma {:induction false} CountAfterChange(form: map<string, string>, fields: seq<string>, f: string, v: string)
    ensures Trim(v) != "" ==> CountFilled(form[f := v], fields) >= CountFilled(form, fields)
    ensures Trim(v) == "" ==> CountFilled(form[f := v], fields) <= CountFilled(form, fields)
  {
    if fields != [] {
      CountAfterChange(form, fields[1..], f, v);
    }
  }

  /** type, date_reported, contact_phone and image_url (and any other key)
      do not move the bar; filling a required field never lowers it and
      blanking one never raises it. */
  lemma ProgressAfterChange(form: map<string, string>, f: string, v: string)
    ensures f !in RequiredFields ==> ProgressOf(form[f := v]) == ProgressOf(form)
    ensures Trim(v) != "" ==> ProgressOf(form[f := v]) >= ProgressOf(form)
    ensures Trim(v) == "" ==> ProgressOf(form[f := v]) <= ProgressOf(form)
  {
    if f !in RequiredFields {
      CountIgnoresOtherFields(form, RequiredFields, f, v);
    }
    CountAfterChange(form, RequiredFields, f, v);
  }

  // ---------------------------------------------------------------------
  // The form state

  /** The initial formData: a lost item, today's date, everything else "". */
  function InitialForm(today: string): map<string, string>
  {
    map["type" := "lost", "title" := "", "description" := "", "category" := "",
        "location" := "", "date_reported" := today, "contact_name" := "",
        "contact_email" := "", "contact_phone" := "", "image_url" := ""]
  }

  /** The initial form holds ten fields and starts the bar at 0. */
  lemma InitialProgressIsZero(today: string)
    ensures ProgressOf(InitialForm(today)) == 0
    ensures InitialForm(today)["type"] == "lost" && InitialForm(today)["date_reported"] == today
  {
    var m := InitialForm(today);
    forall i | 0 <= i < |RequiredFields| ensures RequiredFields[i] in m && m[RequiredFields[i]] == "" {
    }
    NothingFilled(m, RequiredFields);
  }

  lemma {:induction false} NothingFilled(form: map<string, string>, fields: seq<string>)
    requires forall i :: 0 <= i < |fields| ==> fields[i] in form && form[fields[i]] == ""
    ensures CountFilled(form, fields) == 0
  {
    if fields != [] {
      NothingFilled(form, fields[1..]);
    }
  }

  /** The errors after a change to `field`: its message is blanked when it
      was non-empty (`if (errors[field])`). */
  function ClearError(errors: map<string, string>, field: string): (r: map<string, string>)
    ensures r.Keys == errors.Keys
    ensures forall k :: k in errors && k != field ==> r[k] == errors[k]
    ensures field in r ==> r[field] == ""
  {
    if field in errors && errors[field] != "" then errors[field := ""] else errors
  }

  /** A toast: its title and description (every one is destructive). */
  datatype Toast = Toast(title: string, description: string)

  /** The toast handleImageChange shows, given the check and the read. */
  function ImageToast(check: ImageCheck, read: Option<string>): (r: Option<Toast>)
    ensures r.None? <==> check == NoFile || (check == Accepted && read.Some?)
  {
    match check
    case NoFile => None
    case WrongType => Some(Toast("Invalid file", "Only JPG, PNG or WEBP images are allowed."))
    case TooLarge => Some(Toast("File too large", "Please upload an image smaller than 2MB."))
    case Accepted => if read.None? then Some(Toast("Error", "Failed to read image file.")) else None
  }

  class ReportForm {
    var formData: map<string, string>
    var errors: map<string, string>

    /** `today` is `new Date().toISOString().split("T")[0]`. */
    constructor (today: string)
      ensures formData == InitialForm(today) && errors == map[]
    {
      formData := InitialForm(today);
      errors := map[];
    }

    function Progress(): int
      reads this
    {
      ProgressOf(formData)
    }

    /** handleChange: sets the one field and clears its error. */
    method HandleChange(field: string, value: string)
      modifies this
      ensures formData == old(formData)[field := value]
      ensures errors == ClearError(old(errors), field)
    {
      formData := formData[field := value];
      if field in errors && errors[field] != "" {
        errors := errors[field := ""];
      }
    }

    /** handleImageChange: the checks of ImageUpload, then the data URL read
        from the file (None when reading failed) becomes image_url. The
        progress bar does not move. */
    method HandleImageChange(file: Option<ImageFile>, dataUrl: Option<string>) returns (toast: Option<Toast>)
      modifies this
      ensures toast == ImageToast(CheckImage(file), dataUrl)
      ensures formData == if CheckImage(file) == Accepted && dataUrl.Some?
                          then old(formData)["image_url" := dataUrl.value] else old(formData)
      ensures errors == old(errors)
      ensures Progress() == old(Progress())
    {
      var check := CheckImage(file);
      if check == NoFile {
        return None;
      }
      if check == WrongType {
        return Some(Toast("Invalid file", "Only JPG, PNG or WEBP images are allowed."));
      }
      if check == TooLarge {
        return Some(Toast("File too large", "Please upload an image smaller than 2MB."));
      }
      if dataUrl.None? {
        return Some(Toast("Error", "Failed to read image file."));
      }
      ProgressAfterChange(formData, "image_url", dataUrl.value);
      formData := formData["image_url" := dataUrl.value];
      toast := None;
    }
  }
}
