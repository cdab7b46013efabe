/**
 * The profile form screen (`BaseProfileViewController`), used both to create a profile and
 * to edit one.
 *
 * The nickname field takes at most ten characters. The duplicate-check button and the
 * completion button are switched on and off by the edits, by the result of a nickname check
 * and by the image. Validity is held by `validNameObserver`: unknown until a check answers,
 * and reset to unknown by an edit. Every time the validity or the image is emitted again, the
 * completion button is enabled by the known validity, or, while it is unknown, by the name
 * being unchanged from the profile being edited.
 *
 * The reactor the screen sends its actions to is not part of this model; the actions are
 * logged as `FormRequest`s. Text lengths count characters.
 */
module ProfileForm {
  import opened Options
  import LoginProfileSetup

  /** `ViewType`. */
  datatype ViewType = Create | Edit

  /** An action the screen sends to its reactor. */
  datatype FormRequest = CheckNickname(name: string) | SetProfile(profile: LoginProfileSetup.Profile)

  /** The longest nickname the field accepts. */
  const MaxNameLength: nat := 10

  /** `s` with the `length` characters at `start` replaced by `replacement`. */
  function Replaced(s: string, start: nat, length: nat, replacement: string): (t: string)
    requires start + length <= |s|
    ensures |t| == |s| - length + |replacement|
    ensures t[..start] == s[..start]
    ensures t[start..start + |replacement|] == replacement
    ensures t[start + |replacement|..] == s[start + length..]
  {
    s[..start] + replacement + s[start + length..]
  }

  /**
   * `textField(_:shouldChangeCharactersIn:replacementString:)`: an edit of a field without
   * text is always allowed; otherwise it is allowed exactly when the text it produces has at
   * most ten characters. So a deletion, or a replacement no longer than what it replaces, is
   * never refused in a field within the limit.
   */
  function ShouldChangeCharacters(current: Option<string>, start: nat, length: nat, replacement: string): (ok: bool)
    requires current.Some? ==> start + length <= |current.value|
    ensures current.None? ==> ok
    ensures current.Some? ==> (ok <==> |current.value| - length + |replacement| <= MaxNameLength)
    ensures current.Some? && |current.value| <= MaxNameLength && |replacement| <= length ==> ok
  {
    match current
    case None => true
    case Some(text) =>
      var newText := Replaced(text, start, length, replacement);
      |newText| <= MaxNameLength
  }

  /** The enable rule of the completion button: the known validity, or else an unchanged name. */
  function CompletionEnabled(validName: Option<bool>, nameChanged: bool): (enabled: bool)
    ensures validName.Some? ==> enabled == validName.value
    ensures validName.None? ==> (enabled <==> !nameChanged)
  {
    validName.GetOr(!nameChanged)
  }

  class ProfileFormView {
    const viewType: Option<ViewType>
    /** `nameTextField.text`. */
    var text: Option<string>
    /** `previousProfile`: the profile being edited, once it is set. */
    var previousProfile: Option<LoginProfileSetup.Profile>
    /** Whether `imageObserver` holds an image. */
    var hasImage: bool
    /** The latest value of `validNameObserver`. */
    var validName: Option<bool>
    var completionEnabled: bool
    var duplicateEnabled: bool
    /** `nameCheckLabel.isHidden`, and the overlap the label shows. */
    var checkLabelHidden: bool
    var overlapShown: bool
    /** The actions sent to the reactor, oldest first. */
    var sent: seq<FormRequest>

    /** `previousProfile?.name`. */
    function PreviousName(): Option<string>
      reads this
    {
      if previousProfile.Some? then previousProfile.value.name else None
    }

    /** `isChangedName`: the field's text differs from the edited profile's name. */
    function IsChangedName(): (changed: bool)
      reads this
      ensures changed <==> text != PreviousName()
      ensures previousProfile.None? ==> (changed <==> text.Some?)
    {
      text != PreviousName()
    }

    /**
     * `viewDidLoad`: the bindings are made while both observers still hold their initial
     * "nothing", so the completion button starts enabled exactly when the name is unchanged.
     * The initial states of the field and of the two custom views are parameters.
     */
    constructor(viewType: Option<ViewType>, text: Option<string>, duplicateEnabled: bool, checkLabelHidden: bool)
      ensures this.viewType == viewType && this.text == text && previousProfile.None?
      ensures !hasImage && validName.None? && sent == []
      ensures completionEnabled <==> text.None?
      ensures this.duplicateEnabled == duplicateEnabled && this.checkLabelHidden == checkLabelHidden && !overlapShown
    {
      this.viewType := viewType;
      this.text := text;
      previousProfile := None;
      hasImage := false;
      validName := None;
      this.duplicateEnabled := duplicateEnabled;
      this.checkLabelHidden := checkLabelHidden;
      overlapShown := false;
      sent := [];
      new;
      completionEnabled := CompletionEnabled(None, IsChangedName());
    }

    /**
     * `setEditProfile(_:)`: the profile is remembered and its name put in the field, without any
     * emission. Its image is only displayed: `imageObserver`, which the submission reads, is
     * left as it was.
     */
    method SetEditProfile(profile: LoginProfileSetup.Profile)
      modifies this
      ensures previousProfile == Some(profile) && text == profile.name && hasImage == old(hasImage)
      ensures !IsChangedName()
      ensures validName == old(validName) && completionEnabled == old(completionEnabled)
      ensures duplicateEnabled == old(duplicateEnabled) && checkLabelHidden == old(checkLabelHidden)
      ensures overlapShown == old(overlapShown) && sent == old(sent)
    {
      previousProfile := Some(profile);
      text := profile.name;
    }

    /** A new value of `validNameObserver`, and the subscribers it reaches. */
    method EmitValidName(v: Option<bool>)
      modifies this
      ensures validName == v
      ensures completionEnabled == CompletionEnabled(v, IsChangedName())
      ensures v.Some? ==> !duplicateEnabled && overlapShown == !v.value
      ensures v.None? ==> duplicateEnabled == old(duplicateEnabled) && overlapShown == old(overlapShown)
      ensures text == old(text) && previousProfile == old(previousProfile) && hasImage == old(hasImage)
      ensures checkLabelHidden == old(checkLabelHidden) && sent == old(sent)
    {
      validName := v;
      completionEnabled := CompletionEnabled(v, IsChangedName());
      if v.Some? {
        duplicateEnabled := false;
        overlapShown := !v.value;
      }
    }

    /**
     * The `nameOverlap` pulse: an overlap `o` makes the name invalid exactly when `o` holds.
     * The check button is switched off, the label shows the overlap, and the completion
     * button follows the validity.
     */
    method NameOverlapPulse(isOverlap: bool)
      modifies this
      ensures validName == Some(!isOverlap)
      ensures completionEnabled == !isOverlap && !duplicateEnabled && overlapShown == isOverlap
      ensures text == old(text) && previousProfile == old(previousProfile) && hasImage == old(hasImage)
      ensures checkLabelHidden == old(checkLabelHidden) && sent == old(sent)
    {
      EmitValidName(Some(!isOverlap));
    }

    /** The `randomName` pulse: the suggested name is put in the field and can be checked. */
    method RandomNamePulse(name: string)
      modifies this
      ensures text == Some(name) && duplicateEnabled
      ensures previousProfile == old(previousProfile) && hasImage == old(hasImage) && validName == old(validName)
      ensures completionEnabled == old(completionEnabled) && checkLabelHidden == old(checkLabelHidden)
      ensures overlapShown == old(overlapShown) && sent == old(sent)
    {
      duplicateEnabled := true;
      text := Some(name);
    }

    /** A new image from the picker, or the default image: the completion rule is evaluated again. */
    method ImageChanged()
      modifies this
      ensures hasImage
      ensures completionEnabled == CompletionEnabled(validName, IsChangedName())
      ensures text == old(text) && previousProfile == old(previousProfile) && validName == old(validName)
      ensures duplicateEnabled == old(duplicateEnabled) && checkLabelHidden == old(checkLabelHidden)
      ensures overlapShown == old(overlapShown) && sent == old(sent)
    {
      hasImage := true;
      completionEnabled := CompletionEnabled(validName, IsChangedName());
    }

    /**
     * A keystroke: UIKit asks `ShouldChangeCharacters` and applies the edit only when it is
     * allowed, which raises `editingChanged`. A field within the limit stays within it.
     */
    method Type(start: nat, length: nat, replacement: string)
      requires text.Some? ==> start + length <= |text.value|
      requires text.None? ==> start == 0 && length == 0
      modifies this
      ensures !ShouldChangeCharacters(old(text), start, length, replacement) ==> text == old(text)
      ensures ShouldChangeCharacters(old(text), start, length, replacement) ==>
        text == Some(if old(text).None? then replacement else Replaced(old(text).value, start, length, replacement))
      ensures old(text).Some? && |old(text).value| <= MaxNameLength ==> text.Some? && |text.value| <= MaxNameLength
      ensures previousProfile == old(previousProfile) && hasImage == old(hasImage) && sent == old(sent)
    {
      if !ShouldChangeCharacters(text, start, length, replacement) {
        return;
      }
      text := Some(if text.None? then replacement else Replaced(text.value, start, length, replacement));
      EditingChanged();
    }

    /** `editingChanged` on the field, handled as the screen's type says. */
    method EditingChanged()
      modifies this
      ensures viewType == Some(Create) ==>
        && duplicateEnabled && validName.None? && checkLabelHidden
        && completionEnabled == !IsChangedName() && overlapShown == old(overlapShown)
      ensures viewType == Some(Edit) && PreviousName().Some? ==>
        && validName.None? && checkLabelHidden && duplicateEnabled == IsChangedName()
        && completionEnabled == !IsChangedName() && overlapShown == old(overlapShown)
      ensures viewType == Some(Edit) && PreviousName().Some? ==> duplicateEnabled != completionEnabled
      ensures viewType.None? || (viewType == Some(Edit) && PreviousName().None?) ==>
        && validName == old(validName) && completionEnabled == old(completionEnabled)
        && duplicateEnabled == old(duplicateEnabled) && checkLabelHidden == old(checkLabelHidden)
        && overlapShown == old(overlapShown)
      ensures text == old(text) && previousProfile == old(previousProfile) && hasImage == old(hasImage)
      ensures sent == old(sent)
    {
      match viewType
      case Some(Create) =>
        duplicateEnabled := true;
        EmitValidName(None);
        checkLabelHidden := true;
      case Some(Edit) =>
        if PreviousName().Some? {
          checkLabelHidden := true;
          EmitValidName(None);
          duplicateEnabled := IsChangedName();
        }
      case None =>
    }

    /**
     * A tap on the duplicate-check button: when the nickname validator accepts the text (its
     * verdict is a parameter), the text is sent to be checked.
     */
    method DuplicateTapped(validatorAccepts: bool)
      modifies this
      ensures validatorAccepts && text.Some? ==> sent == old(sent) + [CheckNickname(text.value)]
      ensures !(validatorAccepts && text.Some?) ==> sent == old(sent)
      ensures text == old(text) && previousProfile == old(previousProfile) && hasImage == old(hasImage)
      ensures validName == old(validName) && completionEnabled == old(completionEnabled)
      ensures duplicateEnabled == old(duplicateEnabled) && checkLabelHidden == old(checkLabelHidden)
      ensures overlapShown == old(overlapShown)
    {
      if validatorAccepts && text.Some? {
        sent := sent + [CheckNickname(text.value)];
      }
    }

    /** A tap on the completion button: the field's text and the image are sent as the profile. */
    method CompletionTapped()
      modifies this
      ensures sent == old(sent) + [SetProfile(LoginProfileSetup.Profile(text, hasImage))]
      ensures text == old(text) && previousProfile == old(previousProfile) && hasImage == old(hasImage)
      ensures validName == old(validName) && completionEnabled == old(completionEnabled)
      ensures duplicateEnabled == old(duplicateEnabled) && checkLabelHidden == old(checkLabelHidden)
      ensures overlapShown == old(overlapShown)
    {
      sent := sent + [SetProfile(LoginProfileSetup.Profile(text, hasImage))];
    }
  }
}
