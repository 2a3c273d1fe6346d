/**
 * The export options panel, `app/components/ExportSection.jsx`: which
 * headers look like phone numbers, the check that a vCard export has a
 * phone column to read, when the export button is disabled, and how a
 * change to one option is merged into the export state.
 */
module ExportSection {
  import opened Wrappers
  import opened Strings
  import opened Seqs
  import opened Tabular
  import ProcessRoute

  // ------------------------------------------------------------ phone test

  /**
   * `PHONE_PATTERN.test(h)` for `/phone|tel|mobile|cell|contact.?no|number/i`.
   * The pattern is ASCII, so the case-insensitive match is a plain match
   * on the ASCII-lowered header.
   */
  predicate IsPhoneHeader(h: string)
  {
    var l := AsciiLower(h);
    || Contains(l, "phone") || Contains(l, "tel") || Contains(l, "mobile") || Contains(l, "cell")
    || OptionalGap(l, "contact", "no") || Contains(l, "number")
  }

  /** `detectedPhoneColumns`: the headers that look like phone columns, in header order. */
  function DetectedPhoneColumns(headers: seq<string>): (r: seq<string>)
    ensures IsSubsequence(r, headers)
    ensures forall h :: h in r <==> h in headers && IsPhoneHeader(h)
  {
    var r := Filter(headers, IsPhoneHeader);
    assert forall h :: h in r <==> h in headers && IsPhoneHeader(h) by {
      forall h ensures h in r <==> h in headers && IsPhoneHeader(h) {
        FilterMember(headers, IsPhoneHeader, h);
      }
    }
    r
  }

  /** The `i` flag: the test sees only the ASCII-lowered header, so headers that differ in case are judged alike, and a header is judged as its lower-case form. */
  lemma PhoneHeaderIgnoresCase(h: string, h': string)
    requires AsciiLower(h) == AsciiLower(h')
    ensures IsPhoneHeader(h) == IsPhoneHeader(h')
    ensures IsPhoneHeader(h) == IsPhoneHeader(AsciiLower(h))
  {
    AsciiLowerIdempotent(h);
  }

  /** Which common headers the pattern accepts and rejects. */
  lemma PhoneHeaderExamples()
    ensures IsPhoneHeader("Phone Number")
    ensures IsPhoneHeader("MOBILE")
    ensures IsPhoneHeader("Contact_No")
    ensures !IsPhoneHeader("Email")
  {
    assert AsciiLower("Phone Number")[0..5] == "phone";
    assert OccursAt(AsciiLower("Phone Number"), "phone", 0);
    assert AsciiLower("MOBILE") == "mobile";
    assert OccursAt(AsciiLower("MOBILE"), "mobile", 0);
    var c := AsciiLower("Contact_No");
    assert c == "contact_no";
    assert OptionalGapAt(c, "contact", "no", 0) by {
      assert c[0..7] == "contact" && c[8..10] == "no";
    }
    EmailIsNoPhoneHeader();
  }

  lemma EmailIsNoPhoneHeader()
    ensures !IsPhoneHeader("Email")
  {
    var l := AsciiLower("Email");
    assert l == "email";
    NotContainsChar(l, "phone", 0);
    NotContainsChar(l, "tel", 0);
    NotContainsChar(l, "mobile", 1);
    NotContainsChar(l, "cell", 0);
    NotContainsChar(l, "contact", 0);
    NotContainsChar(l, "number", 0);
    if OptionalGap(l, "contact", "no") {
      OptionalGapContainsFirst(l, "contact", "no");
    }
  }

  /** A `Contact No` column is both a phone column here and a name-like header for the vCard names. */
  lemma ContactNoIsPhoneAndName()
    ensures IsPhoneHeader("Contact No")
    ensures ProcessRoute.IsNameHeader("Contact No")
  {
    var l := AsciiLower("Contact No");
    assert l == "contact no";
    assert l[0..7] == "contact" && l[8..10] == "no";
    assert OptionalGapAt(l, "contact", "no", 0);
    assert OccursAt(l, "contact", 0);
  }

  /**
   * So a vCard export of rows whose only column is `Contact No`, with that
   * column as the phone column, names each card after its own number.
   */
  lemma ContactNoRowNamedAfterNumber(value: string)
    requires Trim(value) != ""
    ensures ProcessRoute.VcfContacts([Row(["Contact No"], map["Contact No" := value])], ["Contact No"], "", "") ==
            [ProcessRoute.Contact(Trim(value), Trim(value))]
  {
    var key := "Contact No";
    var row := Row([key], map[key := value]);
    var t := Trim(value);
    assert Cell(row, key) == value;
    assert ProcessRoute.NameKeys(row) == [key] by {
      ContactNoIsPhoneAndName();
      assert [key][1..] == [];
    }
    var names := ProcessRoute.Names([row], "", "");
    assert names == [t] by {
      ProcessRoute.DisplayNameWithoutAffixes(row, 0);
    }
    var phones := ProcessRoute.Phones(row, [key]);
    assert phones == [t];
    var group := ProcessRoute.RowContacts(t, phones);
    assert group == [ProcessRoute.Contact(t, t)] by {
      assert phones == [] + [t];
      ProcessRoute.RowContactsAppend(t, [], t);
    }
    assert ProcessRoute.RowGroups([row], names, [key]) == [] + [group];
    FlattenAppend([], group);
  }

  // -------------------------------------------------------- vCard checking

  const NoColumnMessage: string := "Select at least one column to use as the phone number."
  const NoPhoneColumnPrefix: string := "None of the selected columns appear to contain phone numbers. Detected phone columns: "
  const NoneDetected: string := "none found in this file"

  /** The hint listing the detected phone columns, or saying there are none. */
  function NoPhoneColumnMessage(detected: seq<string>): string
  {
    NoPhoneColumnPrefix + (if |detected| > 0 then Join(detected, ", ") else NoneDetected) + "."
  }

  /**
   * `vcfValidationError`: no complaint unless the format is `vcf`; then
   * one when no column is selected, and one when none of the selected
   * columns looks like a phone column.
   */
  function VcfValidationError(format: string, columns: seq<string>, headers: seq<string>): (r: Option<string>)
    ensures format != "vcf" ==> r == None
    ensures format == "vcf" && columns == [] ==> r == Some(NoColumnMessage)
    ensures format == "vcf" && columns != [] ==>
      (r == None <==> exists c :: c in columns && IsPhoneHeader(c))
    ensures r.Some? ==> r.value != ""
  {
    if format != "vcf" then None
    else if |columns| == 0 then Some(NoColumnMessage)
    else if !(exists c :: c in columns && IsPhoneHeader(c)) then Some(NoPhoneColumnMessage(DetectedPhoneColumns(headers)))
    else None
  }

  /** The no-phone-column message names every detected phone column, or says none were found when there is none. */
  lemma NoPhoneMessageListsDetected(format: string, columns: seq<string>, headers: seq<string>, h: string)
    requires format == "vcf" && columns != []
    requires forall c :: c in columns ==> !IsPhoneHeader(c)
    ensures VcfValidationError(format, columns, headers).Some?
    ensures h in headers && IsPhoneHeader(h) ==> Contains(VcfValidationError(format, columns, headers).value, h)
    ensures (forall x :: x in headers ==> !IsPhoneHeader(x)) ==>
      VcfValidationError(format, columns, headers) == Some(NoPhoneColumnPrefix + NoneDetected + ".")
  {
    var detected := DetectedPhoneColumns(headers);
    var msg := VcfValidationError(format, columns, headers).value;
    if h in headers && IsPhoneHeader(h) {
      var k :| 0 <= k < |detected| && detected[k] == h;
      JoinContainsElement(detected, ", ", k);
      var list := Join(detected, ", ");
      assert msg == NoPhoneColumnPrefix + (list + ".");
      ContainsInPrefix(list, ".", h);
      ContainsInSuffix(NoPhoneColumnPrefix, list + ".", h);
    }
    if forall x :: x in headers ==> !IsPhoneHeader(x) {
      assert forall x :: x !in detected;
    }
  }

  /**
   * `exportDisabled`. The error is read by JavaScript truthiness, so an
   * empty message would not count; every message the check produces is
   * non-empty.
   */
  function ExportDisabled(canExport: bool, isExporting: bool, format: string, vcfError: Option<string>): bool
  {
    !canExport || isExporting || (format == "vcf" && vcfError.Some? && vcfError.value != "")
  }

  /** Export is blocked exactly when it is not allowed, already running, or a vCard export has no usable phone column. */
  lemma ExportDisabledCases(canExport: bool, isExporting: bool, format: string, columns: seq<string>, headers: seq<string>)
    ensures ExportDisabled(canExport, isExporting, format, VcfValidationError(format, columns, headers)) <==>
      (|| !canExport || isExporting
       || (format == "vcf" && (columns == [] || forall c :: c in columns ==> !IsPhoneHeader(c))))
  {
  }

  /** A CSV or XLSX export is never blocked by the vCard check. */
  lemma OtherFormatsIgnoreVcfCheck(canExport: bool, isExporting: bool, format: string, columns: seq<string>, headers: seq<string>)
    requires format != "vcf"
    ensures ExportDisabled(canExport, isExporting, format, VcfValidationError(format, columns, headers)) <==> !canExport || isExporting
  {
  }

  // ----------------------------------------------------------- export state

  /** The export options the page keeps: columns, format and the two name affixes. */
  datatype ExportState = ExportState(columns: seq<string>, format: string, vcfPrefix: string, vcfSuffix: string)

  /** A patch: the fields present in the object spread over the state. */
  datatype ExportPatch = ExportPatch(columns: Option<seq<string>>, format: Option<string>, vcfPrefix: Option<string>, vcfSuffix: Option<string>)

  function Pick<T>(patched: Option<T>, current: T): T
  {
    if patched.Some? then patched.value else current
  }

  /** `{ ...exportState, ...patch }`: each field from the patch when it has it, otherwise as it was. */
  function Update(state: ExportState, patch: ExportPatch): (r: ExportState)
    ensures patch.columns.Some? ==> r.columns == patch.columns.value
    ensures patch.columns.None? ==> r.columns == state.columns
    ensures patch.format.Some? ==> r.format == patch.format.value
    ensures patch.format.None? ==> r.format == state.format
    ensures patch.vcfPrefix.Some? ==> r.vcfPrefix == patch.vcfPrefix.value
    ensures patch.vcfPrefix.None? ==> r.vcfPrefix == state.vcfPrefix
    ensures patch.vcfSuffix.Some? ==> r.vcfSuffix == patch.vcfSuffix.value
    ensures patch.vcfSuffix.None? ==> r.vcfSuffix == state.vcfSuffix
  {
    ExportState(Pick(patch.columns, state.columns), Pick(patch.format, state.format),
                Pick(patch.vcfPrefix, state.vcfPrefix), Pick(patch.vcfSuffix, state.vcfSuffix))
  }

  /** The patch with no fields. */
  const EmptyPatch: ExportPatch := ExportPatch(None, None, None, None)

  /** Two patches applied one after the other, as one: the later one wins where both have a field. */
  function Then(p: ExportPatch, q: ExportPatch): ExportPatch
  {
    ExportPatch(if q.columns.Some? then q.columns else p.columns,
                if q.format.Some? then q.format else p.format,
                if q.vcfPrefix.Some? then q.vcfPrefix else p.vcfPrefix,
                if q.vcfSuffix.Some? then q.vcfSuffix else p.vcfSuffix)
  }

  /** An empty patch changes nothing, and applying a patch twice is applying it once. */
  lemma UpdateNeutralAndIdempotent(state: ExportState, patch: ExportPatch)
    ensures Update(state, EmptyPatch) == state
    ensures Update(Update(state, patch), patch) == Update(state, patch)
  {
  }

  /** Successive updates compose: the state after `p` then `q` is the state after their merge. */
  lemma UpdateCompose(state: ExportState, p: ExportPatch, q: ExportPatch)
    ensures Update(Update(state, p), q) == Update(state, Then(p, q))
  {
  }

  /** The panel's four controls each patch one field: the other three are left as they were. */
  lemma SingleFieldUpdates(state: ExportState, columns: seq<string>, format: string, affix: string)
    ensures Update(state, EmptyPatch.(columns := Some(columns))) == state.(columns := columns)
    ensures Update(state, EmptyPatch.(format := Some(format))) == state.(format := format)
    ensures Update(state, EmptyPatch.(vcfPrefix := Some(affix))) == state.(vcfPrefix := affix)
    ensures Update(state, EmptyPatch.(vcfSuffix := Some(affix))) == state.(vcfSuffix := affix)
  {
  }
}
